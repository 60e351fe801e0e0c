/**
 * Products of real factors over a sequence, the shape of every naive Bayes
 * score, and the algebra the scoring lemmas need: splitting a product,
 * dropping factors equal to 1, and pulling a common scale out of it.
 */
module Products {

  /** The product of `g` over the elements of `s`, left to right. */
  function Product<T>(s: seq<T>, g: T -> real): real
  {
    if s == [] then 1.0 else Product(s[..|s| - 1], g) * g(s[|s| - 1])
  }

  /** The elements of `s` that satisfy `keep`, in order. */
  function Filter<T>(s: seq<T>, keep: T -> bool): (r: seq<T>)
    ensures |r| <= |s|
    ensures forall i :: 0 <= i < |r| ==> keep(r[i])
  {
    if s == [] then []
    else if keep(s[|s| - 1]) then Filter(s[..|s| - 1], keep) + [s[|s| - 1]]
    else Filter(s[..|s| - 1], keep)
  }

  function Power(x: real, n: nat): real
  {
    if n == 0 then 1.0 else x * Power(x, n - 1)
  }

  lemma {:induction false} PowerPositive(x: real, n: nat)
    requires x > 0.0
    ensures Power(x, n) > 0.0
  {
    if n > 0 {
      PowerPositive(x, n - 1);
      MulPositive(x, Power(x, n - 1));
    }
  }

  lemma MulPositive(a: real, b: real)
    requires a > 0.0 && b > 0.0
    ensures a * b > 0.0
  {
  }

  lemma MulAssoc(a: real, b: real, c: real)
    ensures (a * b) * c == a * (b * c)
  {
  }

  lemma MulSwapMiddle(a: real, b: real, c: real, e: real)
    ensures (a * b) * (c * e) == (a * e) * (b * c)
  {
  }

  /** Multiplying by the same positive number keeps order and equality. */
  lemma ScaledOrder(a: real, b: real, p: real)
    requires p > 0.0
    ensures a * p <= b * p <==> a <= b
    ensures a * p == b * p <==> a == b
  {
    if a <= b {
      assert b * p - a * p == (b - a) * p;
    } else {
      assert a * p - b * p == (a - b) * p;
    }
  }

  lemma ProductLast<T>(s: seq<T>, x: T, g: T -> real)
    ensures Product(s + [x], g) == Product(s, g) * g(x)
  {
    assert (s + [x])[..|s|] == s;
  }

  lemma {:induction false} ProductAppend<T>(s: seq<T>, u: seq<T>, g: T -> real)
    ensures Product(s + u, g) == Product(s, g) * Product(u, g)
  {
    if u == [] {
      assert s + u == s;
    } else {
      var front, last := u[..|u| - 1], u[|u| - 1];
      assert u == front + [last];
      assert s + u == (s + front) + [last];
      ProductLast(s + front, last, g);
      ProductAppend(s, front, g);
      MulAssoc(Product(s, g), Product(front, g), g(last));
    }
  }

  /** A factor equal to 1 can be dropped from anywhere in a product. */
  lemma Neutral<T>(s: seq<T>, x: T, u: seq<T>, g: T -> real)
    requires g(x) == 1.0
    ensures Product(s + [x] + u, g) == Product(s + u, g)
  {
    ProductAppend(s + [x], u, g);
    ProductLast(s, x, g);
    ProductAppend(s, u, g);
  }

  /** Where `g` is 1 off `keep` and `h` on it, the product of `g` is that of
    * `h` over the kept elements. */
  lemma {:induction false} ProductFilter<T>(s: seq<T>, g: T -> real, h: T -> real, keep: T -> bool)
    requires forall x :: g(x) == if keep(x) then h(x) else 1.0
    ensures Product(s, g) == Product(Filter(s, keep), h)
  {
    if s != [] {
      var front, last := s[..|s| - 1], s[|s| - 1];
      ProductFilter(front, g, h, keep);
      var p := Filter(front, keep);
      assert Product(s, g) == Product(front, g) * g(last);
      if keep(last) {
        assert Filter(s, keep) == p + [last];
        ProductLast(p, last, h);
      } else {
        assert Filter(s, keep) == p;
      }
    }
  }

  /** Scaling each kept factor by `d` scales the product by `d` once per kept element. */
  lemma {:induction false} ProductScale<T>(s: seq<T>, g: T -> real, h: T -> real, keep: T -> bool, d: real)
    requires forall x :: keep(x) ==> h(x) == g(x) * d
    requires forall x :: !keep(x) ==> h(x) == g(x)
    ensures Product(s, g) * Power(d, |Filter(s, keep)|) == Product(s, h)
  {
    if s != [] {
      var front, last := s[..|s| - 1], s[|s| - 1];
      ProductScale(front, g, h, keep, d);
      ScaleStep(Product(front, g), Product(front, h), g(last), h(last), d, Power(d, |Filter(front, keep)|), keep(last));
      if keep(last) {
        assert |Filter(s, keep)| == |Filter(front, keep)| + 1;
      } else {
        assert Filter(s, keep) == Filter(front, keep);
      }
    }
  }

  lemma ScaleStep(pg: real, ph: real, gx: real, hx: real, d: real, pw: real, kept: bool)
    requires pg * pw == ph
    requires hx == if kept then gx * d else gx
    ensures (pg * gx) * (if kept then d * pw else pw) == ph * hx
  {
    if kept {
      MulSwapMiddle(pg, gx, d, pw);
    } else {
      MulAssoc(pg, gx, pw);
      MulAssoc(pg, pw, gx);
    }
  }
}
