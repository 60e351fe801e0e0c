/**
 * Ranking the labels by score: the comparators `cmp_f64` and `cmp_w_label`,
 * and the stable sort `classify` applies to the (score, label) pairs before
 * it takes the last one.
 *
 * The pairs enter the sort in ascending label order. A stable sort by score
 * keeps equal scores in that order, so its result is the sequence sorted by
 * score and then by label (`Sorted`), and that sequence is unique
 * (`SortedUnique`). `SortByScore` is an insertion sort with the same
 * comparator and the same stability, which therefore gives the same result.
 */
module Ranking {
  import opened Training
  import opened Scoring

  datatype Ordering = Less | Equal | Greater

  /** cmp_f64: the order of two scores. */
  function CmpScore(a: real, b: real): (o: Ordering)
    ensures o == Less <==> a < b
    ensures o == Equal <==> a == b
    ensures o == Greater <==> b < a
  {
    if a < b then Less else if a > b then Greater else Equal
  }

  /** On exact scores the comparator is a total order, as sorting needs:
    * swapping the arguments reverses it, and it is transitive. */
  lemma CmpScoreIsTotalOrder(a: real, b: real, c: real)
    ensures CmpScore(a, b) == Less <==> CmpScore(b, a) == Greater
    ensures CmpScore(a, b) != Greater && CmpScore(b, c) != Greater ==> CmpScore(a, c) != Greater
  {
  }

  /** A label with its score, as `classify` ranks them. */
  datatype Ranked = Ranked(score: real, lbl: Label)

  /** cmp_w_label: compares two ranked labels by their scores alone. */
  function CmpWithLabel(a: Ranked, b: Ranked): (o: Ordering)
    ensures o == Less <==> a.score < b.score
    ensures o == Equal <==> a.score == b.score
    ensures o == Greater <==> b.score < a.score
  {
    CmpScore(a.score, b.score)
  }

  /** The label takes no part in the comparison. */
  lemma LabelIgnored(a: Ranked, b: Ranked, la: Label, lb: Label)
    ensures CmpWithLabel(a, b) == CmpWithLabel(a.(lbl := la), b.(lbl := lb))
  {
  }

  /** `a` comes no later than `b` once sorted by score, then by label. */
  predicate InOrder(a: Ranked, b: Ranked)
  {
    a.score < b.score || (a.score == b.score && a.lbl <= b.lbl)
  }

  predicate Sorted(s: seq<Ranked>)
  {
    forall i, j :: 0 <= i < j < |s| ==> InOrder(s[i], s[j])
  }

  predicate LabelsAscending(s: seq<Ranked>)
  {
    forall i, j :: 0 <= i < j < |s| ==> s[i].lbl < s[j].lbl
  }

  // ---------------------------------------------------------------------------
  // The state of an insertion pass: the element at `j` is on its way down
  // through the prefix `s[..n]`.

  /** The prefix is sorted apart from the element at `j`. */
  ghost predicate SortedExcept(s: seq<Ranked>, n: int, j: int)
    requires 0 <= j < n <= |s|
  {
    forall p, q :: 0 <= p < q < n && p != j && q != j ==> InOrder(s[p], s[q])
  }

  /** The element at `j` scores below everything it has moved past. */
  ghost predicate MovedPast(s: seq<Ranked>, n: int, j: int)
    requires 0 <= j < n <= |s|
  {
    forall q :: j < q < n ==> s[j].score < s[q].score
  }

  /** The element at `j` has a greater label than the rest of the prefix. */
  ghost predicate GreatestLabel(s: seq<Ranked>, n: int, j: int)
    requires 0 <= j < n <= |s|
  {
    forall p :: 0 <= p < n && p != j ==> s[p].lbl < s[j].lbl
  }

  /** Every label before `n` is below every label from `n` on. */
  ghost predicate LabelsSplit(s: seq<Ranked>, n: int)
    requires 0 <= n <= |s|
  {
    forall p, q :: 0 <= p < n <= q < |s| ==> s[p].lbl < s[q].lbl
  }

  ghost predicate Inserting(s: seq<Ranked>, n: int, j: int)
    requires 0 <= j < n <= |s|
  {
    SortedExcept(s, n, j) && MovedPast(s, n, j) && GreatestLabel(s, n, j) && LabelsSplit(s, n)
  }

  function Swap(s: seq<Ranked>, k: int): (r: seq<Ranked>)
    requires 0 <= k < |s| - 1
    ensures |r| == |s| && multiset(r) == multiset(s)
  {
    var r := s[k := s[k + 1]][k + 1 := s[k]];
    assert r == s[..k] + [s[k + 1], s[k]] + s[k + 2..];
    assert s == s[..k] + [s[k], s[k + 1]] + s[k + 2..];
    r
  }

  lemma InsertStart(s: seq<Ranked>, i: int)
    requires 0 <= i < |s|
    requires Sorted(s[..i]) && LabelsSplit(s, i) && LabelsAscending(s[i..])
    ensures Inserting(s, i + 1, i) && LabelsAscending(s[i + 1..])
  {
    forall p, q | 0 <= p < q < i ensures InOrder(s[p], s[q]) {
      assert s[p] == s[..i][p] && s[q] == s[..i][q];
    }
    forall p, q | 0 <= p < i + 1 <= q < |s| ensures s[p].lbl < s[q].lbl {
      if p == i {
        assert s[p] == s[i..][0] && s[q] == s[i..][q - i];
      }
    }
    var u, w := s[i + 1..], s[i..];
    forall p, q | 0 <= p < q < |u| ensures u[p].lbl < u[q].lbl {
      assert u[p] == w[p + 1] && u[q] == w[q + 1];
    }
  }

  lemma InsertStep(s: seq<Ranked>, n: int, j: int)
    requires 0 < j < n <= |s|
    requires Inserting(s, n, j) && s[j].score < s[j - 1].score
    ensures Inserting(Swap(s, j - 1), n, j - 1)
    ensures Swap(s, j - 1)[n..] == s[n..]
  {
    var r := Swap(s, j - 1);
    assert r[j - 1] == s[j] && r[j] == s[j - 1];
    assert forall k :: 0 <= k < |s| && k != j - 1 && k != j ==> r[k] == s[k];
    forall p, q | 0 <= p < n <= q < |s| ensures r[p].lbl < r[q].lbl {
      if p == j - 1 {
        assert r[p] == s[j];
      } else if p == j {
        assert r[p] == s[j - 1];
      }
    }
  }

  lemma InsertDone(s: seq<Ranked>, n: int, j: int)
    requires 0 <= j < n <= |s|
    requires Inserting(s, n, j)
    requires j == 0 || s[j - 1].score <= s[j].score
    ensures Sorted(s[..n]) && LabelsSplit(s, n)
  {
    forall p, q | 0 <= p < q < n ensures InOrder(s[p], s[q]) {
      if q == j && p < j - 1 {
        assert InOrder(s[p], s[j - 1]);
      }
    }
    var t := s[..n];
    forall p, q | 0 <= p < q < |t| ensures InOrder(t[p], t[q]) {
      assert t[p] == s[p] && t[q] == s[q];
    }
  }

  /** Swaps the element on its way down with the greater score before it. */
  method SwapDown(a: array<Ranked>, n: int, j: int)
    modifies a
    requires 0 < j < n <= a.Length
    requires Inserting(a[..], n, j) && a[j].score < a[j - 1].score
    ensures Inserting(a[..], n, j - 1)
    ensures a[n..] == old(a[n..])
    ensures multiset(a[..]) == multiset(old(a[..]))
  {
    InsertStep(a[..], n, j);
    ghost var before := a[..];
    a[j - 1], a[j] := a[j], a[j - 1];
    assert a[..] == Swap(before, j - 1);
  }

  /** One insertion pass: moves `a[i]` down past the greater scores before it. */
  method Insert(a: array<Ranked>, i: int)
    modifies a
    requires 0 <= i < a.Length
    requires Sorted(a[..i]) && LabelsSplit(a[..], i) && LabelsAscending(a[i..])
    ensures Sorted(a[..i + 1]) && LabelsSplit(a[..], i + 1) && LabelsAscending(a[i + 1..])
    ensures multiset(a[..]) == multiset(old(a[..]))
  {
    InsertStart(a[..], i);
    var j := i;
    while j > 0 && CmpWithLabel(a[j - 1], a[j]) == Greater
      invariant 0 <= j <= i
      invariant Inserting(a[..], i + 1, j) && LabelsAscending(a[i + 1..])
      invariant multiset(a[..]) == multiset(old(a[..]))
    {
      SwapDown(a, i + 1, j);
      j := j - 1;
    }
    InsertDone(a[..], i + 1, j);
  }

  /** `rankings.sort_by(cmp_w_label)` on pairs given in ascending label
    * order: sorts by score, keeping equal scores in label order. */
  method SortByScore(a: array<Ranked>)
    modifies a
    requires LabelsAscending(a[..])
    ensures Sorted(a[..])
    ensures multiset(a[..]) == multiset(old(a[..]))
  {
    var i := 0;
    assert a[..] == a[0..];
    while i < a.Length
      invariant 0 <= i <= a.Length
      invariant Sorted(a[..i]) && LabelsSplit(a[..], i) && LabelsAscending(a[i..])
      invariant multiset(a[..]) == multiset(old(a[..]))
    {
      Insert(a, i);
      i := i + 1;
    }
    assert a[..] == a[..a.Length];
  }

  /** The last of a sorted sequence has the greatest score, and the greatest
    * label among those of that score. */
  lemma LastIsTop(s: seq<Ranked>)
    requires Sorted(s) && s != []
    ensures forall i :: 0 <= i < |s| ==> s[i].score <= s[|s| - 1].score
    ensures forall i :: 0 <= i < |s| && s[i].score == s[|s| - 1].score ==> s[i].lbl <= s[|s| - 1].lbl
  {
    forall i | 0 <= i < |s| - 1 ensures InOrder(s[i], s[|s| - 1]) {
    }
  }

  /** Sorting the pairs (score of `l`, `l`) of a set of labels and taking the
    * last one yields the top label of the set. */
  lemma LastLabelIsTop(entries: seq<Ranked>, sorted: seq<Ranked>, labels: set<Label>, score: Label -> real)
    requires forall e :: e in entries ==> e.lbl in labels && e.score == score(e.lbl)
    requires forall l :: l in labels ==> Ranked(score(l), l) in entries
    requires Sorted(sorted) && multiset(sorted) == multiset(entries) && sorted != []
    ensures Top(labels, score, sorted[|sorted| - 1].lbl)
  {
    LastIsTop(sorted);
    var last := sorted[|sorted| - 1];
    assert last in multiset(entries);
    forall l | l in labels ensures score(l) <= score(last.lbl) && (score(l) == score(last.lbl) ==> l <= last.lbl) {
      assert Ranked(score(l), l) in multiset(sorted);
    }
  }

  /** Dropping the last element takes it out of the multiset. */
  lemma DropLast(s: seq<Ranked>)
    requires s != []
    ensures multiset(s[..|s| - 1]) == multiset(s) - multiset{s[|s| - 1]}
  {
    assert s == s[..|s| - 1] + [s[|s| - 1]];
  }

  /** Two sorted sequences of the same elements end alike. */
  lemma SameLast(s: seq<Ranked>, t: seq<Ranked>)
    requires Sorted(s) && Sorted(t) && s != [] && t != []
    requires multiset(s) == multiset(t)
    ensures s[|s| - 1] == t[|t| - 1]
  {
    var x, y := s[|s| - 1], t[|t| - 1];
    assert x in multiset(t) && y in multiset(s);
    var k :| 0 <= k < |t| && t[k] == x;
    var m :| 0 <= m < |s| && s[m] == y;
    assert InOrder(x, y) by {
      if k < |t| - 1 {
        assert InOrder(t[k], t[|t| - 1]);
      }
    }
    assert InOrder(y, x) by {
      if m < |s| - 1 {
        assert InOrder(s[m], s[|s| - 1]);
      }
    }
  }

  /** A sorted sequence is its sorted front followed by its last element. */
  lemma SplitLast(s: seq<Ranked>)
    requires Sorted(s) && s != []
    ensures Sorted(s[..|s| - 1])
    ensures s == s[..|s| - 1] + [s[|s| - 1]]
    ensures multiset(s[..|s| - 1]) == multiset(s) - multiset{s[|s| - 1]}
  {
    DropLast(s);
  }

  lemma SameLength(s: seq<Ranked>, t: seq<Ranked>)
    requires multiset(s) == multiset(t)
    ensures |s| == |t|
  {
    assert |t| == |multiset(t)| == |multiset(s)| == |s|;
  }

  /** At most one ordering of a multiset of ranked labels is sorted: every
    * sort that orders by score and then by label gives the same sequence. */
  lemma {:induction false} SortedUnique(s: seq<Ranked>, t: seq<Ranked>)
    requires Sorted(s) && Sorted(t)
    requires multiset(s) == multiset(t)
    ensures s == t
    decreases |s|
  {
    SameLength(s, t);
    if s != [] {
      SameLast(s, t);
      SplitLast(s);
      SplitLast(t);
      SortedUnique(s[..|s| - 1], t[..|t| - 1]);
    }
  }

  lemma Inhabited(s: set<Label>)
    requires s != {}
    ensures exists y :: y in s
  {
    assert (forall y :: y !in s) ==> s == {};
  }

  /** The least label of a non-empty set. */
  ghost function Least(s: set<Label>): (m: Label)
    requires s != {}
    ensures m in s && forall x :: x in s ==> m <= x
    decreases |s|
  {
    Inhabited(s);
    var y :| y in s;
    if s == {y} then y
    else
      var r := Least(s - {y});
      assert forall x :: x in s ==> x == y || x in s - {y};
      if y < r then y else r
  }

  /** The labels of a set in ascending order: the order in which a BTreeMap
    * keyed by the labels yields them. */
  method AscendingKeys(s: set<Label>) returns (ks: seq<Label>)
    ensures |ks| == |s|
    ensures forall x :: x in ks <==> x in s
    ensures forall i, j :: 0 <= i < j < |ks| ==> ks[i] < ks[j]
  {
    ks := [];
    var rest := s;
    while rest != {}
      invariant rest <= s
      invariant forall x :: x in s <==> x in ks || x in rest
      invariant forall x :: x in ks ==> x !in rest
      invariant |ks| + |rest| == |s|
      invariant forall i, j :: 0 <= i < j < |ks| ==> ks[i] < ks[j]
      invariant forall i, x :: 0 <= i < |ks| && x in rest ==> ks[i] < x
      decreases |rest|
    {
      ghost var least := Least(rest);
      var m :| m in rest && forall x :: x in rest ==> m <= x;
      ks := ks + [m];
      rest := rest - {m};
    }
  }
}
