module Scenario {
  import opened Histogram
  import opened Training
  import opened Products
  import opened Scoring
  import opened Classifier

  type Feature = (char, int)
  type Example = seq<Feature>

  const A: Label := 'A' as int
  const B: Label := 'B' as int

  function Identity(v: Example): Example { v }

  function TrainingSet(): seq<(Label, Example)>
  {
    [(A, [('X', 5), ('Y', 4)]),
     (A, [('X', 5), ('Y', 2)]),
     (A, [('X', 3), ('Y', 2)]),
     (B, [('X', 4), ('Y', 4)]),
     (B, [('X', 5), ('Y', 3)])]
  }

  function Trained(): Counts<Feature>
  {
    Train(Empty(), TrainingSet(), Identity)
  }

  lemma Sum5<T>(s: seq<T>, g: T -> nat)
    requires |s| == 5
    ensures SumOf(s, g) == g(s[0]) + g(s[1]) + g(s[2]) + g(s[3]) + g(s[4])
  {
    assert s[..1][..0] == [];
    assert SumOf(s[..1], g) == g(s[0]);
    assert s[..2][..1] == s[..1];
    assert SumOf(s[..2], g) == g(s[0]) + g(s[1]);
    assert s[..3][..2] == s[..2];
    assert SumOf(s[..3], g) == g(s[0]) + g(s[1]) + g(s[2]);
    assert s[..4][..3] == s[..3];
    assert SumOf(s[..4], g) == g(s[0]) + g(s[1]) + g(s[2]) + g(s[3]);
    assert s[..5][..4] == s[..4] && s[..5] == s;
  }

  lemma LabelFacts()
    ensures Trained().total == 5
    ensures Count(Trained().labelCounts, A) == 3 && Count(Trained().labelCounts, B) == 2
    ensures Trained().labelCounts.Keys == {A, B}
  {
    var b := TrainingSet();
    TrainLabels(Empty(), b, Identity);
    forall l | l in Trained().labelCounts ensures l == A || l == B {
      var i :| 0 <= i < |b| && b[i].0 == l;
      assert i == 0 || i == 1 || i == 2 || i == 3 || i == 4;
    }
    assert b[0].0 == A && b[3].0 == B;
    Sum5(b, LabelTally(A));
    Sum5(b, LabelTally(B));
  }

  /** How often the pair `p` yields feature `f` under label `l`. */
  function Tally(p: (Label, Example), f: Feature, l: Label): nat
  {
    if p.0 == l then multiset(p.1)[f] else 0
  }

  /** What training on the five pairs records about feature `f` and label `l`. */
  lemma FeatureFacts(f: Feature, l: Label)
    ensures var b := TrainingSet();
      FeatureCount(Trained(), f, l)
      == Tally(b[0], f, l) + Tally(b[1], f, l) + Tally(b[2], f, l) + Tally(b[3], f, l) + Tally(b[4], f, l)
    ensures var b := TrainingSet();
      f in Trained().featureCounts <==> f in b[0].1 || f in b[1].1 || f in b[2].1 || f in b[3].1 || f in b[4].1
  {
    var b := TrainingSet();
    TrainFeatures(Empty(), b, Identity);
    Sum5(b, PairTally(Identity, f, l));
    forall i | 0 <= i < 5 ensures PairTally(Identity, f, l)(b[i]) == Tally(b[i], f, l) {
      var p := b[i];
      assert PairTally(Identity, f, l)(p) == if p.0 == l then multiset(Identity(p.1))[f] else 0;
    }
    if f in Trained().featureCounts {
      var i :| 0 <= i < |b| && f in Identity(b[i].1);
      assert i == 0 || i == 1 || i == 2 || i == 3 || i == 4;
    }
  }

  lemma Seen()
    ensures ('X', 5) in Trained().featureCounts && ('Y', 2) in Trained().featureCounts
    ensures ('X', 4) in Trained().featureCounts && ('Y', 3) in Trained().featureCounts
    ensures ('X', 3) in Trained().featureCounts
    ensures ('Y', 1) !in Trained().featureCounts && ('X', 2) !in Trained().featureCounts
  {
    FeatureFacts(('X', 5), A);
    FeatureFacts(('Y', 2), A);
    FeatureFacts(('X', 4), A);
    FeatureFacts(('Y', 3), A);
    FeatureFacts(('X', 3), A);
    FeatureFacts(('Y', 1), A);
    FeatureFacts(('X', 2), A);
  }

  lemma CountsX()
    ensures FeatureCount(Trained(), ('X', 5), A) == 2 && FeatureCount(Trained(), ('X', 5), B) == 1
    ensures FeatureCount(Trained(), ('X', 4), A) == 0 && FeatureCount(Trained(), ('X', 4), B) == 1
    ensures FeatureCount(Trained(), ('X', 3), A) == 1 && FeatureCount(Trained(), ('X', 3), B) == 0
  {
    FeatureFacts(('X', 5), A);
    FeatureFacts(('X', 5), B);
    FeatureFacts(('X', 4), A);
    FeatureFacts(('X', 4), B);
    FeatureFacts(('X', 3), A);
    FeatureFacts(('X', 3), B);
  }

  lemma CountsY()
    ensures FeatureCount(Trained(), ('Y', 2), A) == 2 && FeatureCount(Trained(), ('Y', 2), B) == 0
    ensures FeatureCount(Trained(), ('Y', 3), A) == 0 && FeatureCount(Trained(), ('Y', 3), B) == 1
  {
    FeatureFacts(('Y', 2), A);
    FeatureFacts(('Y', 2), B);
    FeatureFacts(('Y', 3), A);
    FeatureFacts(('Y', 3), B);
  }

  /** A product over two elements. */
  lemma TwoFactors<T>(x: T, y: T, g: T -> real)
    ensures Product([x, y], g) == g(x) * g(y)
  {
    assert [x, y][..1] == [x] && [x][..0] == [];
    assert Product([x], g) == g(x);
  }

  /** The smoothed, weighted factors of the X features the test values use. */
  lemma FactorsX()
    ensures Factor(Trained(), ('X', 5), A, 5.0) == 9.0 / 20.0 && Factor(Trained(), ('X', 5), B, 5.0) == 4.0 / 15.0
    ensures Factor(Trained(), ('X', 4), A, 5.0) == 3.0 / 20.0 && Factor(Trained(), ('X', 4), B, 5.0) == 4.0 / 15.0
    ensures Factor(Trained(), ('X', 3), A, 5.0) == 6.0 / 20.0 && Factor(Trained(), ('X', 3), B, 5.0) == 2.0 / 15.0
    ensures Factor(Trained(), ('X', 2), A, 5.0) == 1.0 && Factor(Trained(), ('X', 2), B, 5.0) == 1.0
  {
    LabelFacts();
    Seen();
    CountsX();
  }

  /** The smoothed, weighted factors of the Y features the test values use. */
  lemma FactorsY()
    ensures Factor(Trained(), ('Y', 2), A, 5.0) == 9.0 / 20.0 && Factor(Trained(), ('Y', 2), B, 5.0) == 2.0 / 15.0
    ensures Factor(Trained(), ('Y', 3), A, 5.0) == 3.0 / 20.0 && Factor(Trained(), ('Y', 3), B, 5.0) == 4.0 / 15.0
    ensures Factor(Trained(), ('Y', 1), A, 5.0) == 1.0 && Factor(Trained(), ('Y', 1), B, 5.0) == 1.0
  {
    LabelFacts();
    Seen();
    CountsY();
  }

  /** With labels A and B only, the label of strictly greater score is the top one. */
  lemma Decides(fs: seq<Feature>, winner: Label, loser: Label, r: Label)
    requires (winner == A && loser == B) || (winner == B && loser == A)
    requires ScoreOf(Trained(), fs, 5.0)(loser) < ScoreOf(Trained(), fs, 5.0)(winner)
    requires IsTop(Trained(), fs, r, 5.0)
    ensures r == winner
  {
    LabelFacts();
  }

  lemma FirstTest(r: Label)
    requires IsTop(Trained(), [('X', 5), ('Y', 2)], r, 5.0)
    ensures r == A
  {
    FactorsX();
    FactorsY();
    TwoFactors(('X', 5), ('Y', 2), FactorOf(Trained(), A, 5.0));
    TwoFactors(('X', 5), ('Y', 2), FactorOf(Trained(), B, 5.0));
    Decides([('X', 5), ('Y', 2)], A, B, r);
  }

  lemma SecondTest(r: Label)
    requires IsTop(Trained(), [('X', 4), ('Y', 2)], r, 5.0)
    ensures r == A
  {
    FactorsX();
    FactorsY();
    TwoFactors(('X', 4), ('Y', 2), FactorOf(Trained(), A, 5.0));
    TwoFactors(('X', 4), ('Y', 2), FactorOf(Trained(), B, 5.0));
    Decides([('X', 4), ('Y', 2)], A, B, r);
  }

  lemma ThirdTest(r: Label)
    requires IsTop(Trained(), [('X', 4), ('Y', 1)], r, 5.0)
    ensures r == B
  {
    FactorsX();
    FactorsY();
    TwoFactors(('X', 4), ('Y', 1), FactorOf(Trained(), A, 5.0));
    TwoFactors(('X', 4), ('Y', 1), FactorOf(Trained(), B, 5.0));
    Decides([('X', 4), ('Y', 1)], B, A, r);
  }

  lemma FourthTest(r: Label)
    requires IsTop(Trained(), [('X', 5), ('Y', 1)], r, 5.0)
    ensures r == A
  {
    FactorsX();
    FactorsY();
    TwoFactors(('X', 5), ('Y', 1), FactorOf(Trained(), A, 5.0));
    TwoFactors(('X', 5), ('Y', 1), FactorOf(Trained(), B, 5.0));
    Decides([('X', 5), ('Y', 1)], A, B, r);
  }

  lemma FifthTest(r: Label)
    requires IsTop(Trained(), [('X', 2), ('Y', 3)], r, 5.0)
    ensures r == B
  {
    FactorsX();
    FactorsY();
    TwoFactors(('X', 2), ('Y', 3), FactorOf(Trained(), A, 5.0));
    TwoFactors(('X', 2), ('Y', 3), FactorOf(Trained(), B, 5.0));
    Decides([('X', 2), ('Y', 3)], B, A, r);
  }

  lemma SixthTest(r: Label)
    requires IsTop(Trained(), [('X', 3), ('Y', 3)], r, 5.0)
    ensures r == A
  {
    FactorsX();
    FactorsY();
    TwoFactors(('X', 3), ('Y', 3), FactorOf(Trained(), A, 5.0));
    TwoFactors(('X', 3), ('Y', 3), FactorOf(Trained(), B, 5.0));
    Decides([('X', 3), ('Y', 3)], A, B, r);
  }

  /** The six test values of the worked example and the labels they must get. */
  function Tests(): seq<(Label, Example)>
  {
    [(A, [('X', 5), ('Y', 2)]),
     (A, [('X', 4), ('Y', 2)]),
     (B, [('X', 4), ('Y', 1)]),
     (A, [('X', 5), ('Y', 1)]),
     (B, [('X', 2), ('Y', 3)]),
     (A, [('X', 3), ('Y', 3)])]
  }

  /** The labels the test values are listed with. */
  function Expected(): seq<Label>
  {
    [A, A, B, A, B, A]
  }

  /** Each test value's top label is the label it is listed with. */
  lemma TestsPass(i: int, r: Label)
    requires 0 <= i < |Tests()|
    requires IsTop(Trained(), Tests()[i].1, r, 5.0)
    ensures r == Tests()[i].0 == Expected()[i]
  {
    if i == 0 { FirstTest(r); }
    else if i == 1 { SecondTest(r); }
    else if i == 2 { ThirdTest(r); }
    else if i == 3 { FourthTest(r); }
    else if i == 4 { FifthTest(r); }
    else { SixthTest(r); }
  }

  lemma TakeOneMore<T>(s: seq<T>, i: int)
    requires 0 <= i < |s|
    ensures s[..i + 1] == s[..i] + [s[i]]
  {
  }

  /** `nb` holds the tables of the five training pairs. */
  ghost predicate Ready(nb: NaiveBayes<Example, Feature>)
    reads nb
  {
    && nb.State() == Trained() && nb.extract == Identity && nb.Valid()
    && nb.labelCounts != map[] && nb.total == 5
  }

  /** The classifier it_works trains on the five pairs. */
  method TrainedClassifier() returns (nb: NaiveBayes<Example, Feature>)
    ensures fresh(nb) && Ready(nb)
  {
    nb := new NaiveBayes(Identity);
    nb.Train(TrainingSet());
    LabelFacts();
  }

  /** Classifies the `i`-th test value against the trained classifier. */
  method RunTest(nb: NaiveBayes<Example, Feature>, i: int) returns (r: Label)
    requires 0 <= i < |Tests()|
    requires Ready(nb)
    ensures r == Expected()[i]
  {
    r := nb.Classify(Tests()[i].1);
    TestsPass(i, r);
  }

  /** it_works: trains a classifier on the five pairs and classifies the six
    * test values, which get the labels A, A, B, A, B, A. */
  method ItWorks() returns (results: seq<Label>)
    ensures results == Expected()
  {
    var nb := TrainedClassifier();
    var n := |Tests()|;
    assert n == |Expected()|;
    results := [];
    var i := 0;
    while i < n
      invariant 0 <= i <= n
      invariant Ready(nb)
      invariant results == Expected()[..i]
    {
      var r := RunTest(nb, i);
      TakeOneMore(Expected(), i);
      results := results + [r];
      i := i + 1;
    }
  }
}
