/**
 * The classifier object: the extractor it was built with and the frequency
 * tables it updates in place. `Train` runs the training loop over a batch,
 * `Classify` computes every known label's score, ranks the labels and
 * returns the last one.
 */
module Classifier {
  import opened Histogram
  import opened Training
  import opened Products
  import opened Scoring
  import opened Ranking

  /** The result of an `f64` division: a number, or NaN for 0 / 0. */
  datatype Quotient = Number(value: real) | NotANumber

  class NaiveBayes<V, F(==)> {
    const extract: V -> seq<F>
    var labelCounts: map<Label, nat>
    var featureCounts: map<F, map<Label, nat>>
    var total: nat

    /** The frequency tables as a value. */
    function State(): Counts<F>
      reads this
    {
      Counts(labelCounts, featureCounts, total)
    }

    ghost predicate Valid()
      reads this
    {
      WellFormed(State())
    }

    /** new: an untrained classifier around `extract`. */
    constructor (extract: V -> seq<F>)
      ensures this.extract == extract
      ensures State() == Empty()
      ensures Valid()
    {
      this.extract := extract;
      labelCounts := map[];
      featureCounts := map[];
      total := 0;
    }

    /** p_label: the share of the training pairs that carry `l`; on an
      * untrained classifier the division is 0 / 0. */
    function PLabel(l: Label): (p: Quotient)
      reads this
      requires Valid()
      ensures p == NotANumber <==> total == 0
      ensures p.Number? ==> total > 0 && p.value == Prior(State(), l, total as real)
      ensures p.Number? ==> 0.0 <= p.value <= 1.0
      ensures p.Number? ==> (p.value > 0.0 <==> l in labelCounts)
    {
      if total == 0 then NotANumber
      else
        TrainedIffTotalPositive(State());
        Number(Count(labelCounts, l) as real / total as real)
    }

    /** train: for each pair in order, bumps its label, then bumps the label in
      * the histogram of every feature extracted from its value, creating that
      * histogram the first time the feature is seen. */
    method Train(batch: seq<(Label, V)>)
      modifies this
      requires Valid()
      ensures Valid()
      ensures State() == Training.Train(old(State()), batch, extract)
    {
      var i := 0;
      while i < |batch|
        invariant 0 <= i <= |batch|
        invariant State() == Training.Train(old(State()), batch[..i], extract)
      {
        TrainStep(old(State()), batch, i, extract);
        var (lbl, value) := batch[i];
        labelCounts := Bump(labelCounts, lbl);
        total := total + 1;
        BumpEach(extract(value), lbl);
        i := i + 1;
      }
      assert batch[..i] == batch;
      TrainWellFormed(old(State()), batch, extract);
    }

    /** The inner loop of train: bumps `lbl` under each of `features`. */
    method BumpEach(features: seq<F>, lbl: Label)
      modifies this
      ensures featureCounts == BumpFeatures(old(featureCounts), features, lbl)
      ensures labelCounts == old(labelCounts) && total == old(total)
    {
      var k := 0;
      while k < |features|
        invariant 0 <= k <= |features|
        invariant featureCounts == BumpFeatures(old(featureCounts), features[..k], lbl)
        invariant labelCounts == old(labelCounts) && total == old(total)
      {
        BumpFeaturesStep(old(featureCounts), features, k, lbl);
        var feature := features[k];
        ghost var before := featureCounts;
        if feature !in featureCounts {
          featureCounts := featureCounts[feature := map[]];
        }
        featureCounts := featureCounts[feature := Bump(featureCounts[feature], lbl)];
        LazyInsert(before, feature, lbl);
        k := k + 1;
      }
      assert features[..k] == features;
    }

    /** classify: the label of maximal score for the features of `example`,
      * the greatest such label on a tie. The classifier is not changed. */
    method Classify(example: V) returns (result: Label)
      requires Valid() && labelCounts != map[]
      ensures total > 0 && IsTop(State(), extract(example), result, total as real)
    {
      TrainedIffTotalPositive(State());
      var labels := AscendingKeys(labelCounts.Keys);
      var features := extract(example);
      var probs := Scores(labels, features);
      result := Rank(probs, labels);
      ghost var d: Positive := total as real;
      TopOfMatches(probs, labelCounts.Keys, ScoreOf(State(), features, d), result);
    }

    /** The score of every known label: each starts at 1 and is multiplied by
      * the factor of each feature in turn. */
    method Scores(labels: seq<Label>, features: seq<F>) returns (probs: map<Label, real>)
      requires Valid() && total > 0
      requires forall l :: l in labels <==> l in labelCounts
      requires forall p, q :: 0 <= p < q < |labels| ==> labels[p] < labels[q]
      ensures Matches(probs, labelCounts.Keys, ScoreOf(State(), features, total as real))
    {
      ghost var t := State();
      ghost var d: Positive := total as real;
      probs := map l | l in labelCounts :: 1.0;
      StartScores(t, features, d);
      var i := 0;
      while i < |features|
        invariant 0 <= i <= |features|
        invariant Matches(probs, labelCounts.Keys, ScoreOf(t, features[..i], d))
      {
        ScoreSteps(t, features, i, d);
        probs := ScoreFeature(probs, labels, features[i], ScoreOf(t, features[..i], d), ScoreOf(t, features[..i + 1], d));
        i := i + 1;
      }
      assert features[..i] == features;
    }

    /** One pass of the inner loop of classify: multiplies each label's score
      * by the factor of `feature`, taking `before` to `after`. */
    method ScoreFeature(probs: map<Label, real>, labels: seq<Label>, feature: F, ghost before: Label -> real, ghost after: Label -> real)
      returns (r: map<Label, real>)
      requires Valid() && total > 0
      requires forall l :: l in labels <==> l in labelCounts
      requires forall p, q :: 0 <= p < q < |labels| ==> labels[p] < labels[q]
      requires Matches(probs, labelCounts.Keys, before)
      requires Steps(State(), feature, total as real, before, after)
      ensures Matches(r, labelCounts.Keys, after)
    {
      r := probs;
      ghost var done: set<Label> := {};
      var k := 0;
      while k < |labels|
        invariant 0 <= k <= |labels|
        invariant forall q :: 0 <= q < k ==> labels[q] in done
        invariant forall q :: k <= q < |labels| ==> labels[q] !in done
        invariant PartlyScored(r, labelCounts.Keys, done, before, after)
      {
        var l := labels[k];
        var labelTotal := labelCounts[l] + 1;
        if feature in featureCounts {
          var count := Count(featureCounts[feature], l) + 1;
          var w := count as real / labelTotal as real * PLabel(l).value;
          ScoredOne(r, labelCounts.Keys, done, before, after, l, w);
          r := r[l := r[l] * w];
        } else {
          ScoredUnchanged(r, labelCounts.Keys, done, before, after, l);
        }
        done := done + {l};
        k := k + 1;
      }
      forall l | l in labelCounts ensures l in done {
        var q :| 0 <= q < |labels| && labels[q] == l;
      }
      AllScored(r, labelCounts.Keys, done, before, after);
    }

    /** Ranks the labels by score, stable-sorting them from ascending label
      * order, and returns the last one. */
    method Rank(probs: map<Label, real>, labels: seq<Label>) returns (result: Label)
      requires labels != []
      requires forall l :: l in labels <==> l in probs
      requires forall p, q :: 0 <= p < q < |labels| ==> labels[p] < labels[q]
      ensures Top(probs.Keys, ScoreIn(probs), result)
    {
      forall q | 0 <= q < |labels| ensures labels[q] in probs {
        assert labels[q] in labels;
      }
      var rankings := Rankings(probs, labels);
      ghost var entries := rankings[..];
      RankingsCover(probs, labels, entries);
      SortByScore(rankings);
      result := rankings[rankings.Length - 1].lbl;
      LastLabelIsTop(entries, rankings[..], probs.Keys, ScoreIn(probs));
    }
  }

  /** The (score, label) pairs of a table of scores, in the order of `labels`. */
  method Rankings(probs: map<Label, real>, labels: seq<Label>) returns (rankings: array<Ranked>)
    requires forall q :: 0 <= q < |labels| ==> labels[q] in probs
    ensures fresh(rankings) && rankings.Length == |labels|
    ensures forall q :: 0 <= q < |labels| ==> rankings[q] == Ranked(probs[labels[q]], labels[q])
  {
    rankings := new Ranked[|labels|];
    var k := 0;
    while k < |labels|
      invariant 0 <= k <= |labels|
      invariant forall q :: 0 <= q < k ==> rankings[q] == Ranked(probs[labels[q]], labels[q])
    {
      rankings[k] := Ranked(probs[labels[k]], labels[k]);
      k := k + 1;
    }
  }

  /** The pairs built from every label of a table, in ascending label order,
    * are in ascending label order and hold each label with its score. */
  lemma RankingsCover(probs: map<Label, real>, labels: seq<Label>, entries: seq<Ranked>)
    requires forall l :: l in labels <==> l in probs
    requires forall p, q :: 0 <= p < q < |labels| ==> labels[p] < labels[q]
    requires forall q :: 0 <= q < |labels| ==> labels[q] in probs
    requires |entries| == |labels|
    requires forall q :: 0 <= q < |labels| ==> entries[q] == Ranked(probs[labels[q]], labels[q])
    ensures LabelsAscending(entries)
    ensures forall e :: e in entries ==> e.lbl in probs.Keys && e.score == ScoreIn(probs)(e.lbl)
    ensures forall l :: l in probs.Keys ==> Ranked(ScoreIn(probs)(l), l) in entries
  {
    forall l | l in probs.Keys ensures Ranked(ScoreIn(probs)(l), l) in entries {
      var q :| 0 <= q < |labels| && labels[q] == l;
      assert entries[q] == Ranked(probs[l], l);
    }
    forall e | e in entries ensures e.lbl in probs.Keys && e.score == ScoreIn(probs)(e.lbl) {
      var q :| 0 <= q < |entries| && entries[q] == e;
      assert labels[q] in labels;
    }
  }

  /** The score of each label in a table of scores. */
  function ScoreIn(probs: map<Label, real>): Label -> real
  {
    l => if l in probs then probs[l] else 0.0
  }

  /** The table `probs` holds the score `score` gives each of `labels`. */
  ghost predicate Matches(probs: map<Label, real>, labels: set<Label>, score: Label -> real)
  {
    && probs.Keys == labels
    && forall l :: l in probs ==> probs[l] == score(l)
  }

  /** The scores of the labels in `done` are `after`, the others still `before`. */
  ghost predicate PartlyScored(r: map<Label, real>, labels: set<Label>, done: set<Label>, before: Label -> real, after: Label -> real)
  {
    && r.Keys == labels
    && forall l :: l in r ==> r[l] == if l in done then after(l) else before(l)
  }

  lemma ScoredOne(r: map<Label, real>, labels: set<Label>, done: set<Label>, before: Label -> real, after: Label -> real, l: Label, w: real)
    requires PartlyScored(r, labels, done, before, after) && l in r && l !in done
    requires after(l) == before(l) * w
    ensures PartlyScored(r[l := r[l] * w], labels, done + {l}, before, after)
  {
  }

  lemma ScoredUnchanged(r: map<Label, real>, labels: set<Label>, done: set<Label>, before: Label -> real, after: Label -> real, l: Label)
    requires PartlyScored(r, labels, done, before, after) && l in r && l !in done
    requires after(l) == before(l)
    ensures PartlyScored(r, labels, done + {l}, before, after)
  {
  }

  lemma AllScored(r: map<Label, real>, labels: set<Label>, done: set<Label>, before: Label -> real, after: Label -> real)
    requires PartlyScored(r, labels, done, before, after) && labels <= done
    ensures Matches(r, labels, after)
  {
  }

  /** A table holding a score's values picks that score's top label. */
  lemma TopOfMatches(probs: map<Label, real>, labels: set<Label>, score: Label -> real, r: Label)
    requires Matches(probs, labels, score) && Top(probs.Keys, ScoreIn(probs), r)
    ensures Top(labels, score, r)
  {
  }

  /** Every label starts at 1, the score of no features. */
  lemma StartScores<F>(t: Counts<F>, fs: seq<F>, d: Positive)
    ensures Matches(map l | l in t.labelCounts :: 1.0, t.labelCounts.Keys, ScoreOf(t, fs[..0], d))
  {
    assert fs[..0] == [];
  }

  /** `after` is `before` with every score multiplied by the weight of `f` if
    * the store has seen it, and is `before` unchanged otherwise. */
  ghost predicate Steps<F>(t: Counts<F>, f: F, d: Positive, before: Label -> real, after: Label -> real)
  {
    && (f !in t.featureCounts ==> forall l :: after(l) == before(l))
    && (f in t.featureCounts ==> forall l :: after(l) == before(l) * Weight(t, f, l, d))
  }

  /** Taking in the feature at `i` multiplies each score by that feature's factor. */
  lemma ScoreSteps<F>(t: Counts<F>, fs: seq<F>, i: int, d: Positive)
    requires 0 <= i < |fs|
    ensures Steps(t, fs[i], d, ScoreOf(t, fs[..i], d), ScoreOf(t, fs[..i + 1], d))
  {
    forall l ensures ScoreOf(t, fs[..i + 1], d)(l) == ScoreOf(t, fs[..i], d)(l) * Factor(t, fs[i], l, d) {
      ScoreStep(t, fs, i, l, d);
    }
  }

  lemma ScoreStep<F>(t: Counts<F>, fs: seq<F>, i: int, l: Label, d: Positive)
    requires 0 <= i < |fs|
    ensures Product(fs[..i + 1], FactorOf(t, l, d)) == Product(fs[..i], FactorOf(t, l, d)) * Factor(t, fs[i], l, d)
  {
    assert fs[..i + 1] == fs[..i] + [fs[i]];
    ProductLast(fs[..i], fs[i], FactorOf(t, l, d));
  }

  lemma TrainStep<V, F>(t: Counts<F>, batch: seq<(Label, V)>, i: int, extract: V -> seq<F>)
    requires 0 <= i < |batch|
    ensures Train(t, batch[..i + 1], extract) == TrainOne(Train(t, batch[..i], extract), batch[i].0, batch[i].1, extract)
  {
    assert batch[..i + 1][..i] == batch[..i];
  }

  lemma BumpFeaturesStep<F>(fc: map<F, map<Label, nat>>, fs: seq<F>, k: int, l: Label)
    requires 0 <= k < |fs|
    ensures BumpFeatures(fc, fs[..k + 1], l) == BumpFeature(BumpFeatures(fc, fs[..k], l), fs[k], l)
  {
    assert fs[..k + 1][..k] == fs[..k];
  }

  /** Inserting an empty histogram for a new feature and then bumping it is
    * bumping the feature's (empty) histogram. */
  lemma LazyInsert<F>(fc: map<F, map<Label, nat>>, f: F, l: Label)
    ensures (if f in fc then fc else fc[f := map[]])[f := Bump((if f in fc then fc else fc[f := map[]])[f], l)] == BumpFeature(fc, f, l)
  {
  }
}
