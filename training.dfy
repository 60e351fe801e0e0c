/**
 * The frequency store and what training does to it, stated on values.
 *
 * `Counts` is the classifier's state: the label histogram with its total, and
 * for every feature seen so far a per-label histogram of co-occurrences.
 * `Train` is a specification of the training loop: it processes the batch in
 * order, bumping the pair's label and then, for every feature extracted from
 * the pair's value, that feature's histogram under the same label.
 */
module Training {
  import opened Histogram

  /** Labels are totally ordered; the integers stand for any such type. */
  type Label = int

  datatype Counts<F> = Counts(
    labelCounts: map<Label, nat>,
    featureCounts: map<F, map<Label, nat>>,
    total: nat)

  /** The state of a freshly constructed classifier. */
  function Empty<F(==)>(): (t: Counts<F>)
    ensures t.labelCounts == map[] && t.featureCounts == map[] && t.total == 0
  {
    Counts(map[], map[], 0)
  }

  /** The per-label histogram of feature `f`; empty if `f` was never seen. */
  function Inner<F(==)>(fc: map<F, map<Label, nat>>, f: F): map<Label, nat>
  {
    if f in fc then fc[f] else map[]
  }

  /** How often feature `f` was seen together with label `l`. */
  function FeatureCount<F(==)>(t: Counts<F>, f: F, l: Label): nat
  {
    Count(Inner(t.featureCounts, f), l)
  }

  /** The label histogram keeps its total: it is the sum of its counts,
    * and a label has an entry only once it has been bumped. */
  ghost predicate WellFormed<F>(t: Counts<F>)
  {
    && t.total == Total(t.labelCounts)
    && forall l :: l in t.labelCounts ==> t.labelCounts[l] > 0
  }

  /** No feature co-occurs with a label more often than the label occurred. */
  ghost predicate Consistent<F>(t: Counts<F>)
  {
    forall f, l :: f in t.featureCounts && l in t.featureCounts[f] ==>
      t.featureCounts[f][l] <= Count(t.labelCounts, l)
  }

  /** True when no feature occurs twice in `fs`. */
  ghost predicate NoDuplicates<F>(fs: seq<F>)
  {
    forall i, j :: 0 <= i < j < |fs| ==> fs[i] != fs[j]
  }

  /** Bumps label `l` in the histogram of feature `f`, creating it if needed. */
  function BumpFeature<F(==)>(fc: map<F, map<Label, nat>>, f: F, l: Label): map<F, map<Label, nat>>
  {
    fc[f := Bump(Inner(fc, f), l)]
  }

  /** Bumps label `l` under every feature of `fs`, in order. */
  function BumpFeatures<F(==)>(fc: map<F, map<Label, nat>>, fs: seq<F>, l: Label): map<F, map<Label, nat>>
  {
    if fs == [] then fc
    else BumpFeature(BumpFeatures(fc, fs[..|fs| - 1], l), fs[|fs| - 1], l)
  }

  /** Training on one pair `(l, v)`. */
  function TrainOne<V, F(==)>(t: Counts<F>, l: Label, v: V, extract: V -> seq<F>): Counts<F>
  {
    Counts(Bump(t.labelCounts, l), BumpFeatures(t.featureCounts, extract(v), l), t.total + 1)
  }

  /** Training on a batch: the pairs are processed from first to last. */
  function Train<V, F(==)>(t: Counts<F>, batch: seq<(Label, V)>, extract: V -> seq<F>): Counts<F>
  {
    if batch == [] then t
    else
      var last := batch[|batch| - 1];
      TrainOne(Train(t, batch[..|batch| - 1], extract), last.0, last.1, extract)
  }

  /** 1 for a pair carrying label `l`, 0 for any other. */
  function LabelTally<V>(l: Label): ((Label, V)) -> nat
  {
    (p: (Label, V)) => if p.0 == l then 1 else 0
  }

  /** How often a pair carrying label `l` yields feature `f`. */
  function PairTally<V, F(==)>(extract: V -> seq<F>, f: F, l: Label): ((Label, V)) -> nat
  {
    (p: (Label, V)) => if p.0 == l then multiset(extract(p.1))[f] else 0
  }

  /** The number of pairs of `batch` that carry label `l`. */
  function LabelOccurrences<V>(batch: seq<(Label, V)>, l: Label): nat
  {
    SumOf(batch, LabelTally(l))
  }

  /** The number of times `f` is extracted from values labelled `l` in `batch`,
    * counting repeats within one value. */
  function PairOccurrences<V, F(==)>(batch: seq<(Label, V)>, extract: V -> seq<F>, f: F, l: Label): nat
  {
    SumOf(batch, PairTally(extract, f, l))
  }

  // ---------------------------------------------------------------------------
  // One value's features

  lemma {:induction false} BumpFeaturesCount<F>(fc: map<F, map<Label, nat>>, fs: seq<F>, l: Label, f: F, k: Label)
    ensures Count(Inner(BumpFeatures(fc, fs, l), f), k)
         == Count(Inner(fc, f), k) + (if k == l then multiset(fs)[f] else 0)
  {
    if fs != [] {
      var front := fs[..|fs| - 1];
      assert fs == front + [fs[|fs| - 1]];
      BumpFeaturesCount(fc, front, l, f, k);
    }
  }

  lemma {:induction false} BumpFeaturesKeys<F>(fc: map<F, map<Label, nat>>, fs: seq<F>, l: Label)
    ensures forall f :: f in BumpFeatures(fc, fs, l) <==> f in fc || f in fs
    ensures forall f, k :: k in Inner(BumpFeatures(fc, fs, l), f) <==> k in Inner(fc, f) || (k == l && f in fs)
  {
    if fs != [] {
      var front, x := fs[..|fs| - 1], fs[|fs| - 1];
      assert fs == front + [x];
      BumpFeaturesKeys(fc, front, l);
      var before, after := BumpFeatures(fc, front, l), BumpFeatures(fc, fs, l);
      assert after == BumpFeature(before, x, l);
      forall f ensures f in after <==> f in fc || f in fs {
        assert f in fs <==> f in front || f == x;
      }
      forall f, k ensures k in Inner(after, f) <==> k in Inner(fc, f) || (k == l && f in fs) {
        assert f in fs <==> f in front || f == x;
        if f == x {
          assert Inner(after, f) == Bump(Inner(before, f), l);
        } else {
          assert Inner(after, f) == Inner(before, f);
        }
      }
    }
  }

  // ---------------------------------------------------------------------------
  // Training, in closed form

  /** Each label's count rises by the number of batch pairs carrying it, the
    * total by the batch length, and a label has an entry afterwards exactly
    * when it had one before or appears in the batch. */
  lemma {:induction false} TrainLabels<V, F>(t: Counts<F>, batch: seq<(Label, V)>, extract: V -> seq<F>)
    ensures Train(t, batch, extract).total == t.total + |batch|
    ensures forall l :: Count(Train(t, batch, extract).labelCounts, l) == Count(t.labelCounts, l) + LabelOccurrences(batch, l)
    ensures forall l :: l in Train(t, batch, extract).labelCounts <==>
                        l in t.labelCounts || exists i :: 0 <= i < |batch| && batch[i].0 == l
  {
    TrainLabelCounts(t, batch, extract);
    TrainLabelKeys(t, batch, extract);
  }

  lemma {:induction false} TrainLabelCounts<V, F>(t: Counts<F>, batch: seq<(Label, V)>, extract: V -> seq<F>)
    ensures Train(t, batch, extract).total == t.total + |batch|
    ensures forall l :: Count(Train(t, batch, extract).labelCounts, l) == Count(t.labelCounts, l) + LabelOccurrences(batch, l)
  {
    if batch != [] {
      TrainLabelCounts(t, batch[..|batch| - 1], extract);
    }
  }

  lemma {:induction false} TrainLabelKeys<V, F>(t: Counts<F>, batch: seq<(Label, V)>, extract: V -> seq<F>)
    ensures forall l :: l in Train(t, batch, extract).labelCounts <==>
                        l in t.labelCounts || exists i :: 0 <= i < |batch| && batch[i].0 == l
  {
    if batch != [] {
      var front := batch[..|batch| - 1];
      TrainLabelKeys(t, front, extract);
      forall l ensures l in Train(t, batch, extract).labelCounts <==>
                       l in t.labelCounts || exists i :: 0 <= i < |batch| && batch[i].0 == l
      {
        if exists i :: 0 <= i < |front| && front[i].0 == l {
          var i :| 0 <= i < |front| && front[i].0 == l;
          assert batch[i] == front[i];
        }
        if exists i :: 0 <= i < |batch| && batch[i].0 == l {
          var i :| 0 <= i < |batch| && batch[i].0 == l;
          if i < |front| {
            assert front[i] == batch[i];
          }
        }
      }
    }
  }

  /** Each (feature, label) count rises by the number of times the feature is
    * extracted from a value carrying that label; a feature has a histogram
    * afterwards exactly when it had one before or was extracted from some
    * batch value, and a label has an entry in it exactly when it had one
    * before or some value carrying that label yields the feature. */
  lemma {:induction false} TrainFeatures<V, F>(t: Counts<F>, batch: seq<(Label, V)>, extract: V -> seq<F>)
    ensures forall f, l :: FeatureCount(Train(t, batch, extract), f, l)
                        == FeatureCount(t, f, l) + PairOccurrences(batch, extract, f, l)
    ensures forall f :: f in Train(t, batch, extract).featureCounts <==>
                        f in t.featureCounts || exists i :: 0 <= i < |batch| && f in extract(batch[i].1)
    ensures forall f, l :: l in Inner(Train(t, batch, extract).featureCounts, f) <==>
                           l in Inner(t.featureCounts, f)
                           || exists i :: 0 <= i < |batch| && batch[i].0 == l && f in extract(batch[i].1)
  {
    TrainFeatureCounts(t, batch, extract);
    TrainFeatureKeys(t, batch, extract);
    TrainInnerKeys(t, batch, extract);
  }

  lemma {:induction false} TrainFeatureCounts<V, F>(t: Counts<F>, batch: seq<(Label, V)>, extract: V -> seq<F>)
    ensures forall f, l :: FeatureCount(Train(t, batch, extract), f, l)
                        == FeatureCount(t, f, l) + PairOccurrences(batch, extract, f, l)
  {
    if batch != [] {
      var front, last := batch[..|batch| - 1], batch[|batch| - 1];
      var before := Train(t, front, extract);
      TrainFeatureCounts(t, front, extract);
      forall f, l ensures FeatureCount(Train(t, batch, extract), f, l)
                       == FeatureCount(t, f, l) + PairOccurrences(batch, extract, f, l)
      {
        BumpFeaturesCount(before.featureCounts, extract(last.1), last.0, f, l);
      }
    }
  }

  lemma {:induction false} TrainFeatureKeys<V, F>(t: Counts<F>, batch: seq<(Label, V)>, extract: V -> seq<F>)
    ensures forall f :: f in Train(t, batch, extract).featureCounts <==>
                        f in t.featureCounts || exists i :: 0 <= i < |batch| && f in extract(batch[i].1)
  {
    if batch != [] {
      var front, last := batch[..|batch| - 1], batch[|batch| - 1];
      var before := Train(t, front, extract);
      TrainFeatureKeys(t, front, extract);
      BumpFeaturesKeys(before.featureCounts, extract(last.1), last.0);
      forall f ensures f in Train(t, batch, extract).featureCounts <==>
                       f in t.featureCounts || exists i :: 0 <= i < |batch| && f in extract(batch[i].1)
      {
        if exists i :: 0 <= i < |front| && f in extract(front[i].1) {
          var i :| 0 <= i < |front| && f in extract(front[i].1);
          assert batch[i] == front[i];
        }
        if exists i :: 0 <= i < |batch| && f in extract(batch[i].1) {
          var i :| 0 <= i < |batch| && f in extract(batch[i].1);
          if i < |front| {
            assert front[i] == batch[i];
          }
        }
      }
    }
  }

  lemma {:induction false} TrainInnerKeys<V, F>(t: Counts<F>, batch: seq<(Label, V)>, extract: V -> seq<F>)
    ensures forall f, l :: l in Inner(Train(t, batch, extract).featureCounts, f) <==>
                           l in Inner(t.featureCounts, f)
                           || exists i :: 0 <= i < |batch| && batch[i].0 == l && f in extract(batch[i].1)
  {
    if batch != [] {
      var front, last := batch[..|batch| - 1], batch[|batch| - 1];
      var before := Train(t, front, extract);
      TrainInnerKeys(t, front, extract);
      BumpFeaturesKeys(before.featureCounts, extract(last.1), last.0);
      forall f, l ensures l in Inner(Train(t, batch, extract).featureCounts, f) <==>
                          l in Inner(t.featureCounts, f)
                          || exists i :: 0 <= i < |batch| && batch[i].0 == l && f in extract(batch[i].1)
      {
        if exists i :: 0 <= i < |front| && front[i].0 == l && f in extract(front[i].1) {
          var i :| 0 <= i < |front| && front[i].0 == l && f in extract(front[i].1);
          assert batch[i] == front[i];
        }
        if exists i :: 0 <= i < |batch| && batch[i].0 == l && f in extract(batch[i].1) {
          var i :| 0 <= i < |batch| && batch[i].0 == l && f in extract(batch[i].1);
          if i < |front| {
            assert front[i] == batch[i];
          }
        }
      }
    }
  }

  // ---------------------------------------------------------------------------
  // Properties of training

  /** Training on `xs` and then on `ys` is training on `xs + ys`. */
  lemma {:induction false} TrainAppend<V, F>(t: Counts<F>, xs: seq<(Label, V)>, ys: seq<(Label, V)>, extract: V -> seq<F>)
    ensures Train(Train(t, xs, extract), ys, extract) == Train(t, xs + ys, extract)
  {
    if ys == [] {
      assert xs + ys == xs;
    } else {
      assert (xs + ys)[..|xs + ys| - 1] == xs + ys[..|ys| - 1];
      TrainAppend(t, xs, ys[..|ys| - 1], extract);
    }
  }

  /** A permutation has the same elements. */
  lemma SameElements<V>(xs: seq<(Label, V)>, ys: seq<(Label, V)>)
    requires multiset(xs) == multiset(ys)
    ensures forall p :: p in xs <==> p in ys
  {
    forall p ensures p in xs <==> p in ys {
      assert p in xs <==> p in multiset(xs);
      assert p in ys <==> p in multiset(ys);
    }
  }

  lemma PermutationSameLabels<V, F>(t: Counts<F>, xs: seq<(Label, V)>, ys: seq<(Label, V)>, extract: V -> seq<F>)
    requires multiset(xs) == multiset(ys)
    ensures Train(t, xs, extract).labelCounts == Train(t, ys, extract).labelCounts
  {
    var a, b := Train(t, xs, extract).labelCounts, Train(t, ys, extract).labelCounts;
    TrainLabels(t, xs, extract);
    TrainLabels(t, ys, extract);
    SameElements(xs, ys);
    forall l ensures l in a <==> l in b {
      if exists i :: 0 <= i < |xs| && xs[i].0 == l {
        var i :| 0 <= i < |xs| && xs[i].0 == l;
        assert xs[i] in xs;
        var j :| 0 <= j < |ys| && ys[j] == xs[i];
      }
      if exists i :: 0 <= i < |ys| && ys[i].0 == l {
        var i :| 0 <= i < |ys| && ys[i].0 == l;
        assert ys[i] in ys;
        var j :| 0 <= j < |xs| && xs[j] == ys[i];
      }
    }
    forall l | l in a ensures a[l] == b[l] {
      SumOfPermutation(xs, ys, LabelTally(l));
      assert Count(a, l) == Count(b, l);
    }
  }

  lemma PermutationSameFeatureKeys<V, F>(t: Counts<F>, xs: seq<(Label, V)>, ys: seq<(Label, V)>, extract: V -> seq<F>)
    requires multiset(xs) == multiset(ys)
    ensures forall f :: f in Train(t, xs, extract).featureCounts <==> f in Train(t, ys, extract).featureCounts
  {
    var a, b := Train(t, xs, extract).featureCounts, Train(t, ys, extract).featureCounts;
    TrainFeatures(t, xs, extract);
    TrainFeatures(t, ys, extract);
    SameElements(xs, ys);
    forall f ensures f in a <==> f in b {
      if exists i :: 0 <= i < |xs| && f in extract(xs[i].1) {
        var i :| 0 <= i < |xs| && f in extract(xs[i].1);
        assert xs[i] in xs;
        var j :| 0 <= j < |ys| && ys[j] == xs[i];
      }
      if exists i :: 0 <= i < |ys| && f in extract(ys[i].1) {
        var i :| 0 <= i < |ys| && f in extract(ys[i].1);
        assert ys[i] in ys;
        var j :| 0 <= j < |xs| && xs[j] == ys[i];
      }
    }
    assert forall f :: f in a.Keys <==> f in b.Keys;
  }

  lemma PermutationSameInner<V, F>(t: Counts<F>, xs: seq<(Label, V)>, ys: seq<(Label, V)>, extract: V -> seq<F>)
    requires multiset(xs) == multiset(ys)
    ensures forall f :: Inner(Train(t, xs, extract).featureCounts, f) == Inner(Train(t, ys, extract).featureCounts, f)
  {
    TrainFeatures(t, xs, extract);
    TrainFeatures(t, ys, extract);
    SameElements(xs, ys);
    forall f ensures Inner(Train(t, xs, extract).featureCounts, f) == Inner(Train(t, ys, extract).featureCounts, f) {
      var a, b := Inner(Train(t, xs, extract).featureCounts, f), Inner(Train(t, ys, extract).featureCounts, f);
      forall l ensures l in a <==> l in b {
        if exists i :: 0 <= i < |xs| && xs[i].0 == l && f in extract(xs[i].1) {
          var i :| 0 <= i < |xs| && xs[i].0 == l && f in extract(xs[i].1);
          assert xs[i] in xs;
          var j :| 0 <= j < |ys| && ys[j] == xs[i];
        }
        if exists i :: 0 <= i < |ys| && ys[i].0 == l && f in extract(ys[i].1) {
          var i :| 0 <= i < |ys| && ys[i].0 == l && f in extract(ys[i].1);
          assert ys[i] in ys;
          var j :| 0 <= j < |xs| && xs[j] == ys[i];
        }
      }
      forall l | l in a ensures a[l] == b[l] {
        SumOfPermutation(xs, ys, PairTally(extract, f, l));
        assert FeatureCount(Train(t, xs, extract), f, l) == Count(a, l);
        assert FeatureCount(Train(t, ys, extract), f, l) == Count(b, l);
      }
      MapEqual(a, b);
    }
  }

  /** Two feature tables with the same keys and the same per-feature histograms are equal. */
  lemma FeatureTablesEqual<F>(a: map<F, map<Label, nat>>, b: map<F, map<Label, nat>>)
    requires forall f :: f in a <==> f in b
    requires forall f :: Inner(a, f) == Inner(b, f)
    ensures a == b
  {
    forall f | f in a ensures a[f] == b[f] {
      assert Inner(a, f) == Inner(b, f);
    }
  }

  lemma PermutationSameFeatures<V, F>(t: Counts<F>, xs: seq<(Label, V)>, ys: seq<(Label, V)>, extract: V -> seq<F>)
    requires multiset(xs) == multiset(ys)
    ensures Train(t, xs, extract).featureCounts == Train(t, ys, extract).featureCounts
  {
    PermutationSameFeatureKeys(t, xs, ys, extract);
    PermutationSameInner(t, xs, ys, extract);
    FeatureTablesEqual(Train(t, xs, extract).featureCounts, Train(t, ys, extract).featureCounts);
  }

  /** The order of the batch does not matter: any permutation of it leaves
    * the same tables. */
  lemma TrainPermutation<V, F>(t: Counts<F>, xs: seq<(Label, V)>, ys: seq<(Label, V)>, extract: V -> seq<F>)
    requires multiset(xs) == multiset(ys)
    ensures Train(t, xs, extract) == Train(t, ys, extract)
  {
    TrainLabels(t, xs, extract);
    TrainLabels(t, ys, extract);
    assert |xs| == |multiset(xs)| == |multiset(ys)| == |ys|;
    PermutationSameLabels(t, xs, ys, extract);
    PermutationSameFeatures(t, xs, ys, extract);
  }

  /** Training never decreases a count and never removes an entry. */
  lemma TrainMonotone<V, F>(t: Counts<F>, batch: seq<(Label, V)>, extract: V -> seq<F>)
    ensures t.total <= Train(t, batch, extract).total
    ensures t.labelCounts.Keys <= Train(t, batch, extract).labelCounts.Keys
    ensures t.featureCounts.Keys <= Train(t, batch, extract).featureCounts.Keys
    ensures forall l :: Count(t.labelCounts, l) <= Count(Train(t, batch, extract).labelCounts, l)
    ensures forall f, l :: FeatureCount(t, f, l) <= FeatureCount(Train(t, batch, extract), f, l)
  {
    TrainLabels(t, batch, extract);
    TrainFeatures(t, batch, extract);
  }

  /** Training keeps the label histogram's total equal to the sum of its counts. */
  lemma {:induction false} TrainWellFormed<V, F>(t: Counts<F>, batch: seq<(Label, V)>, extract: V -> seq<F>)
    requires WellFormed(t)
    ensures WellFormed(Train(t, batch, extract))
  {
    if batch != [] {
      var front := batch[..|batch| - 1];
      TrainWellFormed(t, front, extract);
      TotalBump(Train(t, front, extract).labelCounts, batch[|batch| - 1].0);
    }
  }

  /** A well-formed store has a positive total exactly when it knows a label:
    * the untrained and the trained state. */
  lemma TrainedIffTotalPositive<F>(t: Counts<F>)
    requires WellFormed(t)
    ensures t.total > 0 <==> t.labelCounts != map[]
    ensures forall l :: l in t.labelCounts ==> t.labelCounts[l] <= t.total
  {
    assert forall l :: l in t.labelCounts ==> t.labelCounts[l] > 0;
    if t.labelCounts != map[] {
      TotalPositive(t.labelCounts);
    }
    forall l | l in t.labelCounts ensures t.labelCounts[l] <= t.total {
      TotalAtLeast(t.labelCounts, l);
    }
  }

  lemma {:induction false} NoDuplicatesOccurrence<F>(fs: seq<F>, f: F)
    requires NoDuplicates(fs)
    ensures multiset(fs)[f] <= 1
  {
    if fs != [] {
      var front, last := fs[..|fs| - 1], fs[|fs| - 1];
      assert fs == front + [last];
      NoDuplicatesOccurrence(front, f);
      if last == f {
        assert f !in front by {
          forall i | 0 <= i < |front| ensures front[i] != f {
            assert front[i] == fs[i];
          }
        }
      }
    }
  }

  /** When no value yields a feature twice, co-occurrence counts never exceed
    * label counts, and training keeps it so. */
  lemma TrainConsistent<V, F>(t: Counts<F>, batch: seq<(Label, V)>, extract: V -> seq<F>)
    requires Consistent(t)
    requires forall i :: 0 <= i < |batch| ==> NoDuplicates(extract(batch[i].1))
    ensures Consistent(Train(t, batch, extract))
  {
    TrainLabels(t, batch, extract);
    TrainFeatures(t, batch, extract);
    var t' := Train(t, batch, extract);
    forall f, l | f in t'.featureCounts && l in t'.featureCounts[f]
      ensures t'.featureCounts[f][l] <= Count(t'.labelCounts, l)
    {
      forall i | 0 <= i < |batch| ensures multiset(extract(batch[i].1))[f] <= 1 {
        NoDuplicatesOccurrence(extract(batch[i].1), f);
      }
      SumOfLe(batch, PairTally(extract, f, l), LabelTally(l));
      assert FeatureCount(t, f, l) <= Count(t.labelCounts, l);
      assert t'.featureCounts[f][l] == FeatureCount(t', f, l);
    }
  }

  /** A value that yields the same feature twice breaks that bound: one
    * training pair `(0, [7, 7])` already gives feature 7 a count of 2 under
    * label 0, which occurred once. */
  lemma DuplicateFeatureBreaksConsistency()
    ensures var t := Train(Empty(), [(0, [7, 7])], (v: seq<int>) => v);
            FeatureCount(t, 7, 0) == 2 && Count(t.labelCounts, 0) == 1 && !Consistent(t)
  {
    var id := (v: seq<int>) => v;
    var batch: seq<(Label, seq<int>)> := [(0, [7, 7])];
    assert batch[..0] == [];
    var fc := BumpFeatures(map[], [7, 7], 0);
    BumpFeaturesCount(map[], [7, 7], 0, 7, 0);
    BumpFeaturesKeys(map[], [7, 7], 0);
    assert multiset([7, 7])[7] == 2;
    var t := Train(Empty(), batch, id);
    assert t.featureCounts == fc;
    assert FeatureCount(t, 7, 0) == 2;
  }
}
