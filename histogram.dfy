/**
 * Histograms: the counting containers the classifier keeps its statistics in.
 * A histogram is a map from keys to counts; a key that was never bumped has
 * count 0 and no entry. `Total` is the sum of all counts, `SumOf` adds up a
 * per-element tally over a sequence.
 */
module Histogram {

  /** The count of `k`: 0 when `k` was never bumped. */
  function Count<K>(h: map<K, nat>, k: K): nat
  {
    if k in h then h[k] else 0
  }

  /** Adds one occurrence of `k`, creating its entry on first use. */
  function Bump<K>(h: map<K, nat>, k: K): (r: map<K, nat>)
    ensures r.Keys == h.Keys + {k}
    ensures Count(r, k) == Count(h, k) + 1
    ensures forall j :: j in h && j != k ==> r[j] == h[j]
  {
    h[k := Count(h, k) + 1]
  }

  /** Two maps with the same keys and the same values are equal. */
  lemma MapEqual<K, W>(a: map<K, W>, b: map<K, W>)
    requires forall k :: k in a <==> k in b
    requires forall k :: k in a ==> a[k] == b[k]
    ensures a == b
  {
  }

  /** The sum of every count in the histogram. */
  ghost function Total<K>(h: map<K, nat>): nat
    decreases |h|
  {
    if h == map[] then 0
    else
      var k :| k in h;
      assert |h - {k}| < |h| by { assert (h - {k}).Keys == h.Keys - {k}; }
      h[k] + Total(h - {k})
  }

  /** The total may be computed by taking out any one key first. */
  lemma {:induction false} TotalRemove<K>(h: map<K, nat>, k: K)
    requires k in h
    ensures Total(h) == h[k] + Total(h - {k})
    decreases |h|
  {
    var j :| j in h && Total(h) == h[j] + Total(h - {j});
    if j != k {
      assert |h - {j}| < |h| by { assert (h - {j}).Keys == h.Keys - {j}; }
      assert |h - {k}| < |h| by { assert (h - {k}).Keys == h.Keys - {k}; }
      TotalRemove(h - {j}, k);
      TotalRemove(h - {k}, j);
      assert h - {j} - {k} == h - {k} - {j};
    }
  }

  /** A histogram with an entry has a positive total if its counts are positive. */
  lemma TotalPositive<K>(h: map<K, nat>)
    requires h != map[]
    requires forall k :: k in h ==> h[k] > 0
    ensures Total(h) > 0
  {
    assert |h.Keys| != 0;
    var k :| k in h.Keys;
    TotalRemove(h, k);
  }

  /** Every single count is bounded by the total. */
  lemma TotalAtLeast<K>(h: map<K, nat>, k: K)
    requires k in h
    ensures h[k] <= Total(h)
  {
    TotalRemove(h, k);
  }

  /** A bump raises the total by exactly one. */
  lemma TotalBump<K>(h: map<K, nat>, k: K)
    ensures Total(Bump(h, k)) == Total(h) + 1
  {
    var r := Bump(h, k);
    TotalRemove(r, k);
    if k in h {
      TotalRemove(h, k);
      assert r - {k} == h - {k};
    } else {
      assert r - {k} == h;
    }
  }

  /** The sum of `g` over the elements of `s`. */
  function SumOf<T>(s: seq<T>, g: T -> nat): nat
  {
    if s == [] then 0 else SumOf(s[..|s| - 1], g) + g(s[|s| - 1])
  }

  lemma {:induction false} SumOfAppend<T>(s: seq<T>, t: seq<T>, g: T -> nat)
    ensures SumOf(s + t, g) == SumOf(s, g) + SumOf(t, g)
  {
    if t == [] {
      assert s + t == s;
    } else {
      assert (s + t)[..|s + t| - 1] == s + t[..|t| - 1];
      SumOfAppend(s, t[..|t| - 1], g);
    }
  }

  /** The sum depends only on the multiset of elements, not on their order. */
  lemma {:induction false} SumOfPermutation<T>(s: seq<T>, t: seq<T>, g: T -> nat)
    requires multiset(s) == multiset(t)
    ensures SumOf(s, g) == SumOf(t, g)
  {
    if s == [] {
      assert |t| == |multiset(t)| == 0;
    } else {
      var front, x := s[..|s| - 1], s[|s| - 1];
      assert s == front + [x];
      assert x in multiset(t);
      var i :| 0 <= i < |t| && t[i] == x;
      assert t == t[..i] + [x] + t[i + 1..];
      var rest := t[..i] + t[i + 1..];
      assert multiset(front) == multiset(rest) by {
        assert multiset(s) == multiset(front) + multiset{x};
        assert multiset(t) == multiset(t[..i]) + multiset{x} + multiset(t[i + 1..]);
        assert multiset(rest) == multiset(t[..i]) + multiset(t[i + 1..]);
        assert multiset(front) == multiset(s) - multiset{x};
        assert multiset(rest) == multiset(t) - multiset{x};
      }
      SumOfPermutation(front, rest, g);
      SumOfAppend(t[..i] + [x], t[i + 1..], g);
      SumOfAppend(t[..i], [x], g);
      SumOfAppend(t[..i], t[i + 1..], g);
      assert SumOf([x], g) == g(x) by { assert [x][..0] == []; }
    }
  }

  /** A pointwise smaller tally has a smaller sum. */
  lemma {:induction false} SumOfLe<T>(s: seq<T>, g: T -> nat, h: T -> nat)
    requires forall i :: 0 <= i < |s| ==> g(s[i]) <= h(s[i])
    ensures SumOf(s, g) <= SumOf(s, h)
  {
    if s != [] {
      SumOfLe(s[..|s| - 1], g, h);
    }
  }

  /** The sum is positive exactly when some element has a positive tally. */
  lemma {:induction false} SumOfPositive<T>(s: seq<T>, g: T -> nat)
    ensures SumOf(s, g) > 0 <==> exists i :: 0 <= i < |s| && g(s[i]) > 0
  {
    if s != [] {
      var front := s[..|s| - 1];
      SumOfPositive(front, g);
      if exists i :: 0 <= i < |front| && g(front[i]) > 0 {
        var i :| 0 <= i < |front| && g(front[i]) > 0;
        assert s[i] == front[i];
      }
      if exists i :: 0 <= i < |s| && g(s[i]) > 0 {
        var i :| 0 <= i < |s| && g(s[i]) > 0;
        if i < |front| {
          assert front[i] == s[i];
        }
      }
    }
  }
}
