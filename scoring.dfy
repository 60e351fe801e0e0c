/**
 * The score `classify` gives a label, in exact rational arithmetic.
 *
 * Every known label starts at 1. Each extracted feature that the store has
 * seen multiplies the label's score by its add-one smoothed likelihood
 * (count(f, l) + 1) / (count(l) + 1) times the label's prior p_label(l); a
 * feature the store has never seen is skipped. The score of `l` for the
 * features `fs` is therefore `Product(fs, FactorOf(t, l, d))`, where `d` is
 * the denominator p_label divides by. `IsTop` is the label `classify` returns.
 */
module Scoring {
  import opened Histogram
  import opened Training
  import opened Products

  /** A denominator p_label may divide by. */
  type Positive = d: real | d > 0.0 witness 1.0

  /** p_label: the label's count over the label histogram's denominator. */
  function Prior<F>(t: Counts<F>, l: Label, denominator: Positive): real
  {
    Count(t.labelCounts, l) as real / denominator
  }

  /** The add-one smoothed likelihood of `f` under `l`, weighted by the prior. */
  function Weight<F>(t: Counts<F>, f: F, l: Label, denominator: Positive): real
  {
    (FeatureCount(t, f, l) + 1) as real / (Count(t.labelCounts, l) + 1) as real * Prior(t, l, denominator)
  }

  /** What one extracted feature multiplies the score of `l` by: features
    * the store has never seen are skipped. */
  function Factor<F(==)>(t: Counts<F>, f: F, l: Label, denominator: Positive): real
  {
    if f in t.featureCounts then Weight(t, f, l, denominator) else 1.0
  }

  function FactorOf<F(==)>(t: Counts<F>, l: Label, denominator: Positive): F -> real
  {
    f => Factor(t, f, l, denominator)
  }

  function WeightOf<F>(t: Counts<F>, l: Label, denominator: Positive): F -> real
  {
    f => Weight(t, f, l, denominator)
  }

  function Seen<F(==)>(t: Counts<F>): F -> bool
  {
    f => f in t.featureCounts
  }

  /** The features of `fs` that the store has seen, in order. */
  function Present<F(==)>(t: Counts<F>, fs: seq<F>): seq<F>
  {
    Filter(fs, Seen(t))
  }

  /** The score of each label for the features `fs`. */
  function ScoreOf<F(==)>(t: Counts<F>, fs: seq<F>, d: Positive): Label -> real
  {
    l => Product(fs, FactorOf(t, l, d))
  }

  /** `r` is a label of maximal score, and among the labels tied at that
    * score the greatest. */
  ghost predicate Top(labels: set<Label>, score: Label -> real, r: Label)
  {
    && r in labels
    && (forall l :: l in labels ==> score(l) <= score(r))
    && (forall l :: l in labels && score(l) == score(r) ==> l <= r)
  }

  /** The label `classify` must return for the features `fs`. */
  ghost predicate IsTop<F>(t: Counts<F>, fs: seq<F>, r: Label, d: Positive)
  {
    Top(t.labelCounts.Keys, ScoreOf(t, fs, d), r)
  }

  // ---------------------------------------------------------------------------
  // The score formula

  /** The score is the product of the weights of the features the store has
    * seen; the unseen ones take no part. */
  lemma ScoreOverPresent<F>(t: Counts<F>, fs: seq<F>, l: Label, d: Positive)
    ensures Product(fs, FactorOf(t, l, d)) == Product(Present(t, fs), WeightOf(t, l, d))
  {
    ProductFilter(fs, FactorOf(t, l, d), WeightOf(t, l, d), Seen(t));
  }

  /** A feature the store has never seen leaves every score unchanged,
    * wherever it stands among the extracted features. */
  lemma AbsentFeatureNeutral<F>(t: Counts<F>, xs: seq<F>, f: F, ys: seq<F>, l: Label, d: Positive)
    requires f !in t.featureCounts
    ensures Product(xs + [f] + ys, FactorOf(t, l, d)) == Product(xs + ys, FactorOf(t, l, d))
  {
    Neutral(xs, f, ys, FactorOf(t, l, d));
  }

  // ---------------------------------------------------------------------------
  // The denominator of the prior does not change the ranking

  /** A factor with the denominator of the prior taken out. */
  function Unscaled<F(==)>(t: Counts<F>, f: F, l: Label): real
  {
    if f in t.featureCounts
    then (FeatureCount(t, f, l) + 1) as real / (Count(t.labelCounts, l) + 1) as real * Count(t.labelCounts, l) as real
    else 1.0
  }

  function UnscaledOf<F(==)>(t: Counts<F>, l: Label): F -> real
  {
    f => Unscaled(t, f, l)
  }

  /** The score of each label with the denominator of the prior taken out. */
  function UnscaledScoreOf<F(==)>(t: Counts<F>, fs: seq<F>): Label -> real
  {
    l => Product(fs, UnscaledOf(t, l))
  }

  /** A seen feature's factor carries the denominator once. */
  lemma FactorScales<F>(t: Counts<F>, f: F, l: Label, d: Positive)
    requires f in t.featureCounts
    ensures Factor(t, f, l, d) * d == Unscaled(t, f, l)
  {
    var q := (FeatureCount(t, f, l) + 1) as real / (Count(t.labelCounts, l) + 1) as real;
    var c := Count(t.labelCounts, l) as real;
    assert (c / d) * d == c;
    MulAssoc(q, c / d, d);
  }

  lemma FactorsScale<F>(t: Counts<F>, l: Label, d: Positive)
    ensures forall x :: Seen(t)(x) ==> UnscaledOf(t, l)(x) == FactorOf(t, l, d)(x) * d
    ensures forall x :: !Seen(t)(x) ==> UnscaledOf(t, l)(x) == FactorOf(t, l, d)(x)
  {
    forall x | Seen(t)(x) ensures UnscaledOf(t, l)(x) == FactorOf(t, l, d)(x) * d {
      FactorScales(t, x, l, d);
    }
  }

  /** Each seen feature divides the score by the denominator once. */
  lemma ScoreScales<F>(t: Counts<F>, fs: seq<F>, l: Label, d: Positive)
    ensures ScoreOf(t, fs, d)(l) * Power(d, |Present(t, fs)|) == UnscaledScoreOf(t, fs)(l)
  {
    FactorsScale(t, l, d);
    ProductScale(fs, FactorOf(t, l, d), UnscaledOf(t, l), Seen(t), d);
  }

  /** Two pairs of numbers that are the same pair scaled by positive factors
    * compare alike. */
  lemma SameOrder(a1: real, b1: real, p1: real, a2: real, b2: real, p2: real, a: real, b: real)
    requires p1 > 0.0 && p2 > 0.0
    requires a1 * p1 == a && b1 * p1 == b && a2 * p2 == a && b2 * p2 == b
    ensures a1 <= b1 <==> a2 <= b2
    ensures a1 == b1 <==> a2 == b2
  {
    ScaledOrder(a1, b1, p1);
    ScaledOrder(a2, b2, p2);
  }

  /** Every score of `s`, multiplied by `p`, is the score `base` gives. */
  ghost predicate ScaledBy(s: Label -> real, p: real, base: Label -> real)
  {
    forall l :: s(l) * p == base(l)
  }

  /** Scores that are one score scaled by positive amounts pick the same top label. */
  lemma TopScaled(labels: set<Label>, s1: Label -> real, s2: Label -> real, base: Label -> real, p1: real, p2: real, r: Label)
    requires p1 > 0.0 && p2 > 0.0
    requires ScaledBy(s1, p1, base) && ScaledBy(s2, p2, base)
    ensures Top(labels, s1, r) <==> Top(labels, s2, r)
  {
    forall l ensures (s1(l) <= s1(r) <==> s2(l) <= s2(r)) && (s1(l) == s1(r) <==> s2(l) == s2(r)) {
      SameOrder(s1(l), s1(r), p1, s2(l), s2(r), p2, base(l), base(r));
    }
  }

  lemma ScoresScale<F>(t: Counts<F>, fs: seq<F>, d: Positive)
    ensures ScaledBy(ScoreOf(t, fs, d), Power(d, |Present(t, fs)|), UnscaledScoreOf(t, fs))
  {
    forall l ensures ScoreOf(t, fs, d)(l) * Power(d, |Present(t, fs)|) == UnscaledScoreOf(t, fs)(l) {
      ScoreScales(t, fs, l, d);
    }
  }

  /** Whichever positive denominator p_label divides by, `classify` returns
    * the same label: the denominator scales every label's score by the
    * same positive amount. */
  lemma TopIndependentOfDenominator<F>(t: Counts<F>, fs: seq<F>, r: Label, d1: Positive, d2: Positive)
    ensures IsTop(t, fs, r, d1) <==> IsTop(t, fs, r, d2)
  {
    var k := |Present(t, fs)|;
    PowerPositive(d1, k);
    PowerPositive(d2, k);
    ScoresScale(t, fs, d1);
    ScoresScale(t, fs, d2);
    TopScaled(t.labelCounts.Keys, ScoreOf(t, fs, d1), ScoreOf(t, fs, d2), UnscaledScoreOf(t, fs), Power(d1, k), Power(d2, k), r);
  }

  /** At most one label is the top label, so classifying the same value
    * twice against the same store gives the same label. */
  lemma TopUnique(labels: set<Label>, score: Label -> real, r1: Label, r2: Label)
    requires Top(labels, score, r1) && Top(labels, score, r2)
    ensures r1 == r2
  {
  }
}
