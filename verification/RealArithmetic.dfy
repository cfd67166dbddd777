/** Small facts about real products and quotients, kept apart so that each is one step of nonlinear arithmetic. */
module RealArithmetic {
  function SumOf(values: seq<real>): real {
    if values == [] then 0.0 else SumOf(values[..|values| - 1]) + values[|values| - 1]
  }

  function Larger(x: real, y: real): real {
    if x >= y then x else y
  }

  lemma SignOfAProduct(x: real, rate: real)
    requires rate > 0.0
    ensures x * rate >= 0.0 <==> x >= 0.0
  {
    if x < 0.0 {
      assert (-x) * rate > 0.0;
    }
  }

  lemma QuotientsOrder(x: real, y: real, d: real)
    requires d > 0.0 && x <= y
    ensures x / d <= y / d
  {
  }

  lemma QuotientsAdd(x: real, y: real, d: real)
    requires d != 0.0
    ensures x / d + y / d == (x + y) / d
  {
  }

  lemma ProductsOrder(w: real, x: real, y: real)
    requires w >= 0.0 && x <= y
    ensures x * w <= w * y && w * x <= y * w
  {
    assert w * (y - x) >= 0.0;
    assert w * (y - x) == w * y - w * x;
  }

  lemma ProductsAdd(bound: real, x: real, y: real)
    ensures bound * (x + y) == bound * x + bound * y
  {
  }

  /** A sum between `low` and `high` times a count, or a weight. */
  predicate Between(low: real, high: real, count: real, sum: real) {
    low * count <= sum <= high * count
  }

  lemma BetweenAdds(low: real, high: real, count: real, sum: real, count': real, sum': real)
    requires Between(low, high, count, sum) && Between(low, high, count', sum')
    ensures Between(low, high, count + count', sum + sum')
  {
    ProductsAdd(low, count, count');
    ProductsAdd(high, count, count');
  }

  lemma BetweenDivides(low: real, high: real, count: real, sum: real, d: real)
    requires d > 0.0 && Between(low, high, count, sum)
    ensures Between(low, high, count / d, sum / d)
  {
    assert low * (count / d) == (low * count) / d && high * (count / d) == (high * count) / d;
    QuotientsOrder(low * count, sum, d);
    QuotientsOrder(sum, high * count, d);
  }

  lemma BetweenWeighs(low: real, high: real, w: real, v: real)
    requires w >= 0.0 && low <= v <= high
    ensures Between(low, high, w, w * v)
  {
    ProductsOrder(w, low, v);
    ProductsOrder(w, v, high);
  }

  /** One more value, weighed by w. */
  lemma BetweenTakesOneMore(low: real, high: real, count: real, sum: real, w: real, v: real)
    requires w >= 0.0 && low <= v <= high && Between(low, high, count, sum)
    ensures Between(low, high, count + w, sum + w * v)
  {
    BetweenWeighs(low, high, w, v);
    hide Between;
    var weighed := w * v;
    BetweenAdds(low, high, count, sum, w, weighed);
  }
}
