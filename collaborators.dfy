/**
 * The calculator's external collaborators, reduced to the one interface it uses:
 * the grouping policies, the compressed data set (only its grid size per policy),
 * the optimization subsets and the split results (opaque here), and the three
 * values taken from the oblivious-tree learner options.
 */
module Collaborators {

  /** The storage layouts features are grouped by: one bit, half a byte or one byte per bin. */
  datatype GroupingPolicy = BinaryFeatures | HalfByteFeatures | OneByteFeatures

  /**
   * The compressed, quantized feature set. The calculator holds it by const reference,
   * so it is an object whose identity the helpers share; of its contents only the grid
   * size per policy (non-zero when the policy has features) is modelled.
   */
  class CompressedDataSet {
    const gridSize: GroupingPolicy -> nat

    constructor (gridSize: GroupingPolicy -> nat)
      ensures this.gridSize == gridSize
    {
      this.gridSize := gridSize;
    }

    function GetGridSize(policy: GroupingPolicy): nat {
      gridSize(policy)
    }
  }

  /** Which documents sit in which leaf, with their pairwise statistics; never inspected here. */
  type PairwiseOptimizationSubsets

  /** Per-policy split statistics that the score helpers produce; never inspected here. */
  type BinaryFeatureSplitResults

  /**
   * The options of the oblivious-tree learner that the calculator forwards. The
   * regularisers are floats in the system; they are reals here since nothing in
   * the calculator does arithmetic on them.
   */
  datatype TreeLearnerOptions = TreeLearnerOptions(maxDepth: nat, l2Reg: real, pairwiseNonDiagReg: real)
}
