# naive_bayes in Dafny

This is a model of the `naive_bayes` Rust crate: a generic, incrementally
trainable naive Bayes classifier.

A `NaiveBayes` object holds three things:

- a feature extractor that turns a value into a list of features;
- a label histogram (`label_counts`);
- for every feature seen so far, a histogram of the labels it appeared with
  (`feature_counts`).

`train` walks a batch of (label, value) pairs in order. It bumps the label,
then bumps that label in the histogram of every extracted feature, and it
creates a feature's histogram the first time the feature appears.

`classify` gives every known label a starting score of 1. For each extracted
feature the store has seen, it multiplies each label's score by
`(count(f, l) + 1) / (count(l) + 1) * p_label(l)`. It then builds the
(score, label) pairs in ascending label order and stable-sorts them by score
alone. It returns the label of the last pair.

The model is laid out in these modules:

- `Histogram` (histogram.dfy): histograms as `map<K, nat>`, with `Count`, `Bump`, the total, and sums of tallies over a sequence.
- `Training` (training.dfy): the store as a value (`Counts`) and the training loop as a specification function `Train`. It also holds the closed forms of the counts after training, and lemmas:
  - training is order-independent and monotone;
  - training keeps the label total and, conditionally, the co-occurrence bound.
- `Products` (products.dfy): products of real factors over a sequence, and the algebra the score lemmas use.
- `Scoring` (scoring.dfy): the score of a label as a product of factors, the top label with its tie-break (`Top`), and the lemmas about them.
- `Ranking` (ranking.dfy):
  - `cmp_f64` and `cmp_w_label`;
  - the stable sort as an in-place insertion sort on an array;
  - the fact that the last element of the sorted pairs is the top label;
  - the ascending key order of a `BTreeMap`.
- `Classifier` (classifier.dfy): the class `NaiveBayes`. Its map fields are updated in place by `Train`. `Classify` builds the score table in nested loops, then ranks it.
- `Scenario` (scenario.dfy): the crate's `it_works` test. It trains on five pairs, and the six test values get the labels A, A, B, A, B, A under exact arithmetic.

Scores are exact `real` numbers. Labels are `int`, standing for any totally
ordered label type. Features are any type with equality.

The extractor is a pure function `V -> seq<F>` held by the object. The test's
extractor is the identity function (`Scenario.Identity`).

## Model

| member | source | states |
|---|---|---|
| Histogram.Bump | src/lib.rs:56 | A bump adds one to the key's count and creates its entry if missing. Every other entry is unchanged. |
| Histogram.TotalBump | src/lib.rs:56 | A bump raises the sum of all counts by exactly one. |
| Training.Empty | src/lib.rs:44-46 | The state of a new classifier: no labels, no features, total 0. |
| Training.BumpFeaturesCount | src/lib.rs:57-61 | After bumping label l under the features of one value, the count of (f, k) rises by the number of occurrences of f among those features if k is l, and by 0 otherwise. |
| Training.BumpFeaturesKeys | src/lib.rs:57-61 | A feature has a histogram afterwards iff it had one before or occurs in the value's features. A label has an entry in that histogram iff it had one before or is the bumped label of a feature that occurs. |
| Training.TrainLabels | src/lib.rs:54-56 | Training raises the total by the batch length and each label's count by the number of batch pairs carrying it. A label is known afterwards iff it was known before or occurs in the batch. |
| Training.TrainFeatures | src/lib.rs:55-62 | Training raises each (feature, label) count by the number of times the feature is extracted from values carrying that label, counting repeats within a value. Feature histograms and their label entries exist afterwards iff they existed before or the batch produced them. |
| Training.TrainAppend | src/lib.rs:55-63 | Training on xs and then on ys gives the same tables as training on xs + ys. |
| Training.TrainPermutation | src/lib.rs:55-63 | Training on any permutation of a batch gives the same tables. |
| Training.TrainMonotone | src/lib.rs:54-64 | Training never lowers the total or any count, and never removes a label or a feature. |
| Training.TrainWellFormed | src/lib.rs:54-56 | Training keeps two facts: the total equals the sum of the label counts, and every known label has a positive count. |
| Training.TrainedIffTotalPositive | src/lib.rs:48-50 | In a well-formed store, the total is positive iff some label is known, and no label count exceeds the total. |
| Training.TrainConsistent | src/lib.rs:54-63 | If the extractor never yields a feature twice for one value, no co-occurrence count exceeds its label's count. Training preserves this. |
| Training.DuplicateFeatureBreaksConsistency | src/lib.rs:57-61 | One pair whose value yields feature 7 twice gives (7, label) a count of 2 while the label has count 1, so the bound fails. |
| Scoring.ScoreOverPresent | src/lib.rs:68-75 | A label's score is the product of the weights of the extracted features the store has seen. Unseen features take no part. |
| Scoring.AbsentFeatureNeutral | src/lib.rs:71-74 | Inserting an unseen feature anywhere among the extracted features leaves every label's score unchanged. |
| Scoring.TopIndependentOfDenominator | src/lib.rs:48-50 | Whatever positive denominator p_label divides by, classify prefers the same label. |
| Scoring.TopUnique | src/lib.rs:78-81 | At most one label is the top label for given features, so classify is deterministic. |
| Ranking.CmpScore | src/lib.rs:90-97 | cmp_f64 returns Less iff a < b, Greater iff a > b, and Equal iff a == b. |
| Ranking.CmpScoreIsTotalOrder | src/lib.rs:90-97 | On exact scores the comparator is antisymmetric and transitive. |
| Ranking.CmpWithLabel | src/lib.rs:85-87 | cmp_w_label orders two (score, label) pairs by their scores, with the same three iff cases. |
| Ranking.LabelIgnored | src/lib.rs:85-87 | Changing the labels of the two pairs does not change the comparison. |
| Ranking.AscendingKeys | src/lib.rs:67 | Yields each key of the label histogram exactly once, in strictly ascending order: the iteration order of a BTreeMap. |
| Ranking.SortByScore | src/lib.rs:78-79 | The array is sorted in place by score, with ties in ascending label order, and is a permutation of its input. It requires the stable-sort input order: ascending labels. |
| Ranking.SortedUnique | src/lib.rs:79 | Two sequences that are both sorted by score and then label and hold the same elements are equal. So every stable sort of the ascending pairs gives this model's result. |
| Ranking.LastLabelIsTop | src/lib.rs:78-81 | The last sorted pair carries a known label of maximal score, and the greatest label among those tied at that score. |
| Classifier.NaiveBayes.constructor | src/lib.rs:44-46 | new keeps the extractor and starts with empty tables. |
| Classifier.NaiveBayes.PLabel | src/lib.rs:48-50 | p_label is NaN iff nothing was trained. Otherwise it is the label's share of the training pairs: between 0 and 1, and positive iff the label is known. |
| Classifier.NaiveBayes.Train | src/lib.rs:54-64 | The object's tables become exactly `Training.Train` of the old tables and the batch, and they stay well-formed. |
| Classifier.NaiveBayes.BumpEach | src/lib.rs:57-62 | The inner training loop: the feature table becomes the old one with the label bumped under each feature in turn. The label histogram is unchanged. |
| Classifier.NaiveBayes.Classify | src/lib.rs:66-82 | classify on a trained object returns the top label for the extracted features: maximal score, greatest label on a tie. The object is not changed. |
| Classifier.NaiveBayes.Scores | src/lib.rs:67-76 | The score table holds exactly the known labels, each with its score for the features. |
| Classifier.NaiveBayes.ScoreFeature | src/lib.rs:69-75 | One pass over the labels multiplies each score by the feature's weight if the feature was seen, and leaves the scores alone if not. |
| Classifier.NaiveBayes.Rank | src/lib.rs:78-81 | Building the pairs in ascending label order, sorting them and taking the last gives the top label of the score table. |
| Classifier.Rankings | src/lib.rs:78 | The array of pairs holds each label with its score, in the order of the keys. |
| Classifier.RankingsCover | src/lib.rs:78 | The pairs are in ascending label order, each carries a known label with its score, and every known label has its pair. |
| Classifier.LazyInsert | src/lib.rs:58-61 | Inserting an empty histogram for a new feature and then bumping it is the same as bumping the feature's (empty) histogram. |
| Scenario.LabelFacts | src/lib.rs:132-138 | After the five training pairs: total 5, A counted 3 times, B 2 times, and no other label. |
| Scenario.CountsX | src/lib.rs:132-138 | The co-occurrence counts of the X features used by the tests. |
| Scenario.CountsY | src/lib.rs:132-138 | The co-occurrence counts of the Y features used by the tests. |
| Scenario.FactorsX | src/lib.rs:120-125 | The factors of the X features are 9/20 and 4/15, 3/20 and 4/15, and 6/20 and 2/15. The unseen feature (X, 2) has factor 1. |
| Scenario.FactorsY | src/lib.rs:126-131 | The factors of the Y features are 9/20 and 2/15, and 3/20 and 4/15. The unseen feature (Y, 1) has factor 1. |
| Scenario.FirstTest | src/lib.rs:141-142 | The top label of [(X,5),(Y,2)] is A. |
| Scenario.SecondTest | src/lib.rs:144-145 | The top label of [(X,4),(Y,2)] is A. |
| Scenario.ThirdTest | src/lib.rs:147-148 | The top label of [(X,4),(Y,1)] is B. |
| Scenario.FourthTest | src/lib.rs:150-151 | The top label of [(X,5),(Y,1)] is A. |
| Scenario.FifthTest | src/lib.rs:153-154 | The top label of [(X,2),(Y,3)] is B. |
| Scenario.SixthTest | src/lib.rs:156-157 | The top label of [(X,3),(Y,3)] is A. |
| Scenario.TestsPass | src/lib.rs:140-158 | Each test value's top label is the label it is listed with. |
| Scenario.ItWorks | src/lib.rs:160-167 | Training a new object on the five pairs and classifying the six test values gives A, A, B, A, B, A. |

## Left out

- Add-one smoothing applied to every feature would give a feature never seen in training the factor `1 / (count(l) + 1)`. The code skips such a feature entirely (src/lib.rs:71), and the model follows the code (`Scoring.Factor`, `Scoring.AbsentFeatureNeutral`).
- Classifier.NaiveBayes.PLabel: the divisor `label_counts.len()` is defined in the histogram crate, which is not part of this model. It is modelled as the total number of training pairs, as the test's comments at src/lib.rs:117-131 compute it. `Scoring.TopIndependentOfDenominator` shows that any positive denominator ranks the labels alike.
- Classifier.NaiveBayes.PLabel: requires `Valid()`. This is the class invariant: the constructor establishes it and `Train` keeps it, so every reachable object meets it.
- Classifier.NaiveBayes.Classify: the panic of `last().unwrap()` on an untrained object (src/lib.rs:81) is modelled as the precondition that a label is known. The failure path is not modelled.
- Ranking.SortByScore: Rust's `sort_by` is a stable merge sort, and the model uses a stable insertion sort with the same comparator. `Ranking.SortedUnique` shows that both give the same sequence.
- Floating point is not modelled.
  - Scores are exact reals, so rounding in the products is not modelled.
  - NaN is modelled only as p_label's 0 / 0 (`Classifier.Quotient`). The `Equal` answer `cmp_f64` gives for unordered (NaN) operands is not modelled.
- The `println!` calls at src/lib.rs:80 and src/lib.rs:165 are output only and are left out.
- The crates `hash_histogram`, `histogram_macros` and `trait_set`, and the `supervised_learning::Classifier` trait (src/lib.rs:16-28, 53), are not part of this model. Histograms are plain maps with bump and count, and the generic bounds are Dafny type parameters.
- The test's extractor (src/lib.rs:103-113) appears only as the identity function in the scenario.
- A `HashMap` has no defined iteration order. The model never iterates `feature_counts`, and neither does the code.
