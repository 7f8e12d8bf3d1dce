# Pairwise score calculator of the oblivious-tree learner

A Dafny model of `TPairwiseScoreCalcer`, the object through which CatBoost's GPU
learner looks for the best next split of an oblivious tree under a pairwise loss.
Features are stored in several layouts called grouping policies: binary, half-byte
and one-byte. For each policy that has any features (a non-zero grid size), the
calculator owns one pairwise score helper. Each helper is built from four things:
the policy, the shared compressed data set, the optimization subsets, and three tree
options (`MaxDepth`, `L2Reg`, `PairwiseNonDiagReg`). The calculator also keeps the
per-policy split results the helpers produce. Its lookups are guarded: asking for a
policy without a helper fails, and so does asking for results that were never stored.
The result of a split search, `TBestSplitResult`, is ordered by its split properties
alone.

Files:

- `collaborators.dfy`: the external inputs. These are the grouping policy enumeration
  and the compressed data set, of which only `GetGridSize` is modelled. The
  optimization subsets and the split results are opaque types. The tree options are
  reduced to the three values the calculator forwards.
- `pairwise_scores_calcer.dfy`: the helper record and `CreateScoreHelper`, the best
  split result and its order, and the calculator class. The class has its constructor
  loop and its three const lookups. The loop is specified by the function
  `HelpersAfter`, and `HelperRegistry` is an independent, order-free definition of
  the same map.
- `wrappers.dfy`: `Option` and `Result`. A `Result` stands for the exceptions the
  lookups throw. `CatBoostException` is a failed `CB_ENSURE`. `OutOfRange` is
  `TMap::at` on a missing key.

The calculator is a class because the source updates its `Helpers` map in place in
the constructor's loop. The lookups are `const` in the source, so they are functions
that read the object and cannot change it.

`GetAllGroupingPolicies()` is not part of this model. The list it returns is passed
to the constructor as `allPolicies`, and a ghost field keeps it so that `Valid()`
can tie `Helpers` to it. Nothing requires that list to be free of repeats: a repeated
policy re-inserts an identical helper, and `HelpersAfterIsRegistry` proves that order
and repeats do not matter.

Before any result is stored, `GetResultsForPolicy` fails: `Solutions.at(policy)`
throws on a missing key (pairwise_scores_calcer.h:65), so the model returns
`Failure(OutOfRange)` there, and right after construction it always does.

The temp-results flag keeps its default: `storeSolverTempResults` may be left out
and is then `false`, as at pairwise_scores_calcer.h:38.

## Model

| member | source | states |
|---|---|---|
| `PairwiseScoresCalcer.HelpersAfter` | catboost/cuda/methods/pairwise_oblivious_trees/pairwise_scores_calcer.h:44-51 | after the loop visits a policy list (each helper built as `CreateScoreHelper` builds it at lines 10-20), a policy has a helper iff it is in the list and its grid size is non-zero; every helper is built for the policy it is keyed by, on the same data set and subsets, with `MaxDepth`, `L2Reg` and `PairwiseNonDiagReg` copied unchanged from the tree options |
| `PairwiseScoresCalcer.HelpersAfterIsRegistry` | catboost/cuda/methods/pairwise_oblivious_trees/pairwise_scores_calcer.h:44-51 | the map the loop builds equals the map from every listed policy with a non-zero grid size to its helper, so the order of the policies and any repeats do not matter |
| `PairwiseScoresCalcer.PairwiseScoreCalcer.constructor` | catboost/cuda/methods/pairwise_oblivious_trees/pairwise_scores_calcer.h:35-52 | keeps the data set, subsets, tree options and temp-results flag; the loop leaves `Helpers` equal to `HelpersAfter` of the policy list, keyed by exactly the listed policies with non-zero grid size; `Solutions` stays empty, so nothing is computed |
| `PairwiseScoresCalcer.PairwiseScoreCalcer.HasHelperForPolicy` | catboost/cuda/methods/pairwise_oblivious_trees/pairwise_scores_calcer.h:54-56 | on a valid calculator, true exactly when the policy was listed and has a non-zero grid size; reads the object and changes nothing |
| `PairwiseScoresCalcer.PairwiseScoreCalcer.GetHelperForPolicy` | catboost/cuda/methods/pairwise_oblivious_trees/pairwise_scores_calcer.h:58-61 | fails with `CatBoostException` exactly when there is no helper; otherwise returns the helper built for that very policy from the calculator's data set, subsets and tree options |
| `PairwiseScoresCalcer.PairwiseScoreCalcer.GetResultsForPolicy` | catboost/cuda/methods/pairwise_oblivious_trees/pairwise_scores_calcer.h:63-66 | fails with `CatBoostException` when there is no helper, and with `OutOfRange` when there is a helper but no stored result; succeeds, with the stored result, exactly when there is both a helper and a stored result; always fails while `Solutions` is empty, as it is right after construction |
| `PairwiseScoresCalcer.LessIgnoresSolution` | catboost/cuda/methods/pairwise_oblivious_trees/pairwise_scores_calcer.h:25-27 | replacing either result's solution never changes how the two results compare |
| `PairwiseScoresCalcer.SameSplitIsEquivalent` | catboost/cuda/methods/pairwise_oblivious_trees/pairwise_scores_calcer.h:25-27 | two results with the same split are neither less nor greater than each other, whatever their solutions |
| `PairwiseScoresCalcer.LessIsStrictWeakOrder` | catboost/cuda/methods/pairwise_oblivious_trees/pairwise_scores_calcer.h:22-28 | if the split properties' order is a strict weak order, so is the order on best split results |
| `PairwiseScoresCalcer.LessIsNotTotal` | catboost/cuda/methods/pairwise_oblivious_trees/pairwise_scores_calcer.h:22-28 | two distinct results that differ only in their solution cannot be told apart by the order |

`Less` (lines 25-27) models `TBestSplitResult::operator<`: it delegates to the split
order on the two results' best splits. What it promises is stated by
`LessIgnoresSolution`, `SameSplitIsEquivalent`, `LessIsStrictWeakOrder` and
`LessIsNotTotal`.

`CreateScoreHelper` (lines 10-20) only builds the helper record. What it promises is
stated through `HelpersAfter` (lines 44-51, with 10-20) and `GetHelperForPolicy`.

## Left out

- `Compute` and `FindOptimalSplit` are only declared in the header, so they are not modelled. That covers how `Solutions` gets filled, the score formula, the search for the best split and the leaf solver. The model states no invariant between `Solutions` and `Helpers`, because only those unseen bodies could set one.
- `TComputePairwiseScoresHelper` runs GPU kernels on accelerator streams. It is modelled as a record of its construction arguments only.
- `TCompressedDataSet` and `TPairwiseOptimizationSubsets` are read-only external inputs. Of the data set, only `GetGridSize` is modelled, as a function fixed when the data set is made. The subsets are an opaque type.
- `TBestSplitProperties::operator<` is not part of this model. The order on split properties is a parameter `splitLess`, and the split type is a type parameter.
- `GetAllGroupingPolicies()` is not part of this model. Its result is the constructor's `allPolicies` parameter.
- The solution vector is `TVector<float>` behind a `TAtomicSharedPtr`. It is modelled as an optional sequence of reals. Float rounding and atomic reference counting are not captured.
- `L2Reg` and `PairwiseNonDiagReg` are floats, modelled as reals. They are only copied, never computed with.
- The `StoreTempResults` flag is stored and nothing else. Its effect lives in the solver code, which is not modelled.
- The `THolder` ownership of helpers and results is not modelled: the maps hold values. A `Solutions` entry that holds a null pointer cannot occur in the model.
- `GetHelperForPolicy` and `GetResultsForPolicy` return const references in the source. They return values here, so aliasing with the calculator's own maps is not captured.
