/**
 * The pairwise score calculator of the oblivious-tree learner: a registry that owns
 * one score helper per grouping policy that has features, and the per-policy split
 * results those helpers produce, together with the result type whose order decides
 * the best split.
 */
module PairwiseScoresCalcer {
  import opened Wrappers
  import opened Collaborators

  /**
   * A score helper, reduced to the arguments it is built from. Its GPU kernels and
   * streams are not part of this model.
   */
  datatype ComputePairwiseScoresHelper = ComputePairwiseScoresHelper(
    policy: GroupingPolicy,
    dataSet: CompressedDataSet,
    subsets: PairwiseOptimizationSubsets,
    maxDepth: nat,
    l2Reg: real,
    pairwiseNonDiagReg: real)

  /** Builds the helper for one policy from the shared data set, subsets and tree options. */
  function CreateScoreHelper(policy: GroupingPolicy, dataSet: CompressedDataSet,
                             subsets: PairwiseOptimizationSubsets,
                             treeConfig: TreeLearnerOptions): ComputePairwiseScoresHelper
  {
    ComputePairwiseScoresHelper(policy, dataSet, subsets,
                                treeConfig.maxDepth, treeConfig.l2Reg, treeConfig.pairwiseNonDiagReg)
  }

  /** The failures of the lookups: a failed CB_ENSURE, and a map `at` on a missing key. */
  datatype CalcerError = CatBoostException | OutOfRange

  // ---------------------------------------------------------------------------
  // The best split result and its order
  // ---------------------------------------------------------------------------

  /** The winning split's properties paired with the (possibly absent) leaf-value vector. */
  datatype BestSplitResult<Split> = BestSplitResult(bestSplit: Split, solution: Option<seq<real>>)

  /** The order on results: that of their best splits, under the split properties' own order. */
  predicate Less<Split>(a: BestSplitResult<Split>, b: BestSplitResult<Split>,
                        splitLess: (Split, Split) -> bool)
  {
    splitLess(a.bestSplit, b.bestSplit)
  }

  /** `lt` is a strict weak order: irreflexive, transitive, and incomparability is transitive. */
  ghost predicate StrictWeakOrder<T(!new)>(lt: (T, T) -> bool)
  {
    && (forall x :: !lt(x, x))
    && (forall x, y, z :: lt(x, y) && lt(y, z) ==> lt(x, z))
    && (forall x, y, z :: !lt(x, y) && !lt(y, x) && !lt(y, z) && !lt(z, y) ==> !lt(x, z) && !lt(z, x))
  }

  /** Replacing either solution never changes how two results compare. */
  lemma LessIgnoresSolution<Split>(a: BestSplitResult<Split>, b: BestSplitResult<Split>,
                                   sa: Option<seq<real>>, sb: Option<seq<real>>,
                                   splitLess: (Split, Split) -> bool)
    ensures Less(a.(solution := sa), b.(solution := sb), splitLess) <==> Less(a, b, splitLess)
  {
  }

  /**
   * Two results with the same split are equivalent under the order whatever their
   * solutions, as long as the split order is irreflexive.
   */
  lemma SameSplitIsEquivalent<Split>(a: BestSplitResult<Split>, b: BestSplitResult<Split>,
                                     splitLess: (Split, Split) -> bool)
    requires !splitLess(a.bestSplit, a.bestSplit)
    requires a.bestSplit == b.bestSplit
    ensures !Less(a, b, splitLess) && !Less(b, a, splitLess)
  {
  }

  /** The order on results inherits being a strict weak order from the order on splits. */
  lemma LessIsStrictWeakOrder<Split(!new)>(splitLess: (Split, Split) -> bool)
    requires StrictWeakOrder(splitLess)
    ensures StrictWeakOrder((a: BestSplitResult<Split>, b: BestSplitResult<Split>) => Less(a, b, splitLess))
  {
  }

  /**
   * Results that differ only in their solution are distinct values that the order
   * cannot tell apart. Unlike `SameSplitIsEquivalent`, which holds of any two results
   * with equal splits (equal results among them), this exhibits two DIFFERENT results
   * the order treats as equal: even over a strict total order on splits, the order on
   * results is never a strict total order.
   */
  lemma LessIsNotTotal<Split>(split: Split, solution: seq<real>, splitLess: (Split, Split) -> bool)
    requires !splitLess(split, split)
    ensures var a, b := BestSplitResult(split, None), BestSplitResult(split, Some(solution));
            a != b && !Less(a, b, splitLess) && !Less(b, a, splitLess)
  {
  }

  // ---------------------------------------------------------------------------
  // The helper registry built by the constructor
  // ---------------------------------------------------------------------------

  /**
   * The `Helpers` map after the constructor's loop has visited `policies` in order:
   * each policy with a non-zero grid size gets (or gets again) its helper.
   */
  function HelpersAfter(policies: seq<GroupingPolicy>, dataSet: CompressedDataSet,
                        subsets: PairwiseOptimizationSubsets,
                        treeConfig: TreeLearnerOptions): (helpers: map<GroupingPolicy, ComputePairwiseScoresHelper>)
    ensures forall p :: p in helpers <==> p in policies && dataSet.GetGridSize(p) != 0
    ensures forall p :: p in helpers ==>
              && helpers[p].policy == p
              && helpers[p].dataSet == dataSet
              && helpers[p].subsets == subsets
              && helpers[p].maxDepth == treeConfig.maxDepth
              && helpers[p].l2Reg == treeConfig.l2Reg
              && helpers[p].pairwiseNonDiagReg == treeConfig.pairwiseNonDiagReg
    decreases |policies|
  {
    if policies == [] then
      map[]
    else
      var previous := HelpersAfter(policies[..|policies| - 1], dataSet, subsets, treeConfig);
      var policy := policies[|policies| - 1];
      assert forall p :: p in policies <==> p in policies[..|policies| - 1] || p == policy by {
        assert policies == policies[..|policies| - 1] + [policy];
      }
      if dataSet.GetGridSize(policy) != 0 then
        previous[policy := CreateScoreHelper(policy, dataSet, subsets, treeConfig)]
      else
        previous
  }

  /** The registry the constructor is meant to build, stated without reference to the loop. */
  function HelperRegistry(policies: seq<GroupingPolicy>, dataSet: CompressedDataSet,
                          subsets: PairwiseOptimizationSubsets,
                          treeConfig: TreeLearnerOptions): map<GroupingPolicy, ComputePairwiseScoresHelper>
  {
    map p | p in policies && dataSet.GetGridSize(p) != 0 :: CreateScoreHelper(p, dataSet, subsets, treeConfig)
  }

  /**
   * The loop's result does not depend on the order of the policies or on repeats:
   * it is exactly the registry.
   */
  lemma HelpersAfterIsRegistry(policies: seq<GroupingPolicy>, dataSet: CompressedDataSet,
                               subsets: PairwiseOptimizationSubsets,
                               treeConfig: TreeLearnerOptions)
    ensures HelpersAfter(policies, dataSet, subsets, treeConfig) == HelperRegistry(policies, dataSet, subsets, treeConfig)
  {
  }

  // ---------------------------------------------------------------------------
  // The calculator
  // ---------------------------------------------------------------------------

  class PairwiseScoreCalcer {
    const Features: CompressedDataSet
    const Subsets: PairwiseOptimizationSubsets
    const TreeConfig: TreeLearnerOptions
    const StoreTempResults: bool
    /** The policy list the constructor walked. */
    ghost const AllPolicies: seq<GroupingPolicy>

    var Helpers: map<GroupingPolicy, ComputePairwiseScoresHelper>
    var Solutions: map<GroupingPolicy, BinaryFeatureSplitResults>

    /** Helpers are created once, at construction, and never replaced. */
    ghost predicate Valid()
      reads this
    {
      Helpers == HelpersAfter(AllPolicies, Features, Subsets, TreeConfig)
    }

    /**
     * Walks `allPolicies` and registers a helper for each policy whose grid size is
     * non-zero. No scores are computed: no policy has results yet.
     */
    constructor (features: CompressedDataSet, treeConfig: TreeLearnerOptions,
                 subsets: PairwiseOptimizationSubsets, storeSolverTempResults: bool := false,
                 allPolicies: seq<GroupingPolicy>)
      ensures Features == features && Subsets == subsets && TreeConfig == treeConfig
      ensures StoreTempResults == storeSolverTempResults && AllPolicies == allPolicies
      ensures Valid()
      ensures forall p :: p in Helpers <==> p in allPolicies && features.GetGridSize(p) != 0
      ensures Solutions == map[]
    {
      Features := features;
      Subsets := subsets;
      TreeConfig := treeConfig;
      StoreTempResults := storeSolverTempResults;
      AllPolicies := allPolicies;
      Helpers := map[];
      Solutions := map[];
      new;
      for i := 0 to |allPolicies|
        invariant Helpers == HelpersAfter(allPolicies[..i], Features, Subsets, TreeConfig)
        invariant Solutions == map[]
      {
        var policy := allPolicies[i];
        assert allPolicies[..i + 1][..i] == allPolicies[..i];
        if Features.GetGridSize(policy) != 0 {
          Helpers := Helpers[policy := CreateScoreHelper(policy, Features, Subsets, TreeConfig)];
        }
      }
      assert allPolicies[..|allPolicies|] == allPolicies;
    }

    /** Whether a helper was registered for `policy`: exactly the listed policies with features. */
    function HasHelperForPolicy(policy: GroupingPolicy): (has: bool)
      reads this
      ensures Valid() ==> (has <==> policy in AllPolicies && Features.GetGridSize(policy) != 0)
    {
      policy in Helpers
    }

    /**
     * The helper registered for `policy`, built for that policy with the tree options
     * unchanged; fails when there is none.
     */
    function GetHelperForPolicy(policy: GroupingPolicy): (r: Result<ComputePairwiseScoresHelper, CalcerError>)
      reads this
      ensures r.Failure? <==> !HasHelperForPolicy(policy)
      ensures r.Failure? ==> r.error == CatBoostException
      ensures Valid() && r.Success? ==>
                && policy in AllPolicies
                && Features.GetGridSize(policy) != 0
                && r.value == CreateScoreHelper(policy, Features, Subsets, TreeConfig)
    {
      if policy in Helpers then Success(Helpers[policy]) else Failure(CatBoostException)
    }

    /**
     * The results stored for `policy`: fails when it has no helper, and also when
     * nothing was stored for it, which is always the case right after construction.
     */
    function GetResultsForPolicy(policy: GroupingPolicy): (r: Result<BinaryFeatureSplitResults, CalcerError>)
      reads this
      ensures !HasHelperForPolicy(policy) ==> r == Failure(CatBoostException)
      ensures HasHelperForPolicy(policy) && policy !in Solutions ==> r == Failure(OutOfRange)
      ensures r.Success? ==> HasHelperForPolicy(policy) && policy in Solutions && r.value == Solutions[policy]
      ensures HasHelperForPolicy(policy) && policy in Solutions ==> r == Success(Solutions[policy])
      // A corollary of the first two clauses, kept to state that nothing is found right after construction.
      ensures Solutions == map[] ==> r.Failure?
    {
      if policy !in Helpers then Failure(CatBoostException)
      else if policy !in Solutions then Failure(OutOfRange)
      else Success(Solutions[policy])
    }
  }

  /** A calculator over a data set with binary and one-byte features but no half-byte ones. */
  method ConstructionScenario(subsets: PairwiseOptimizationSubsets, treeConfig: TreeLearnerOptions)
  {
    var features := new CompressedDataSet((p: GroupingPolicy) =>
      match p
      case BinaryFeatures => 3
      case HalfByteFeatures => 0
      case OneByteFeatures => 8);
    var calcer := new PairwiseScoreCalcer(features, treeConfig, subsets,
                                          allPolicies := [BinaryFeatures, HalfByteFeatures, OneByteFeatures]);
    assert !calcer.StoreTempResults;
    assert features.GetGridSize(HalfByteFeatures) == 0;
    assert !calcer.HasHelperForPolicy(HalfByteFeatures);
    assert calcer.GetHelperForPolicy(HalfByteFeatures) == Failure(CatBoostException);
    assert features.GetGridSize(OneByteFeatures) == 8;
    var helper := calcer.GetHelperForPolicy(OneByteFeatures);
    assert helper.Success? && helper.value.policy == OneByteFeatures;
    assert helper.value.maxDepth == treeConfig.maxDepth;
    assert calcer.GetResultsForPolicy(OneByteFeatures) == Failure(OutOfRange);
    assert calcer.GetResultsForPolicy(HalfByteFeatures) == Failure(CatBoostException);
  }
}
