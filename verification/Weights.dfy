/** Portfolio weights rounded to two decimals, in exact arithmetic. */
module Weights {

  /** `Number(x.toFixed(2))` by section 21.1.3.3 of ECMA-262: the nearest hundredth, the larger one on a tie of
      magnitudes; magnitudes of 10^21 and above are printed unrounded. */
  function ToFixed2(x: real): real {
    if x <= -1_000_000_000_000_000_000_000.0 || x >= 1_000_000_000_000_000_000_000.0 then x
    else if x < 0.0 then -RoundHundredths(-x)
    else RoundHundredths(x)
  }

  function RoundHundredths(x: real): real {
    (x * 100.0 + 0.5).Floor as real / 100.0
  }

  function Distance(x: real, y: real): real {
    if x <= y then y - x else x - y
  }

  /** The rounding is to the nearest hundredth: no number of hundredths is closer, and a tie goes to the larger. */
  lemma RoundHundredthsNearest(x: real, n: int)
    ensures var r := RoundHundredths(x);
            && -0.005 < r - x <= 0.005
            && Distance(r, x) <= Distance(n as real / 100.0, x)
  {
    var m := (x * 100.0 + 0.5).Floor;
    assert m as real <= x * 100.0 + 0.5 < m as real + 1.0;
    if n < m {
      assert n as real <= m as real - 1.0;
    } else if n > m {
      assert n as real >= m as real + 1.0;
    }
  }

  function Hundredths(n: int): real {
    n as real / 100.0
  }

  /** A whole number of hundredths, and none is closer. */
  ghost predicate NearestHundredth(r: real, x: real) {
    && (exists m :: r == Hundredths(m))
    && (forall n :: Distance(r, x) <= Distance(Hundredths(n), x))
  }

  /** Below 10^21 in magnitude the result is a nearest number of hundredths, the one away from 0 on a tie. */
  lemma ToFixed2Nearest(x: real)
    requires -1_000_000_000_000_000_000_000.0 < x < 1_000_000_000_000_000_000_000.0
    ensures NearestHundredth(ToFixed2(x), x)
    ensures forall n :: Distance(Hundredths(n), x) == Distance(ToFixed2(x), x) ==>
              if x >= 0.0 then Hundredths(n) <= ToFixed2(x) else ToFixed2(x) <= Hundredths(n)
  {
    var y := if x < 0.0 then -x else x;
    var m := (y * 100.0 + 0.5).Floor;
    assert RoundHundredths(y) == Hundredths(m);
    assert ToFixed2(x) == Hundredths(if x < 0.0 then -m else m);
    forall n ensures Distance(ToFixed2(x), x) <= Distance(Hundredths(n), x)
             ensures Distance(Hundredths(n), x) == Distance(ToFixed2(x), x) ==>
                       if x >= 0.0 then Hundredths(n) <= ToFixed2(x) else ToFixed2(x) <= Hundredths(n)
    {
      NearestOfMagnitude(y, if x < 0.0 then -n else n);
    }
  }

  lemma NearestOfMagnitude(y: real, n: int)
    ensures Distance(RoundHundredths(y), y) <= Distance(Hundredths(n), y)
    ensures Distance(RoundHundredths(y), y) == Distance(Hundredths(n), y) ==> Hundredths(n) <= RoundHundredths(y)
  {
    var m := (y * 100.0 + 0.5).Floor;
    assert m as real <= y * 100.0 + 0.5 < m as real + 1.0;
    if n < m {
      assert n as real <= m as real - 1.0;
    } else if n > m {
      assert n as real >= m as real + 1.0;
    }
  }

  lemma ToFixed2Close(x: real)
    ensures Distance(ToFixed2(x), x) <= 0.005 && ToFixed2(-x) == -ToFixed2(x)
  {
  }

  function Sum(values: seq<real>): real {
    if values == [] then 0.0 else Sum(values[..|values| - 1]) + values[|values| - 1]
  }

  function Share(value: real, total: real): real
    requires total > 0.0
  {
    value / total * 100.0
  }

  /** The weight pass: a reduce for the total, then a map. */
  method PortfolioWeights(values: seq<real>) returns (weights: seq<real>)
    ensures |weights| == |values|
    ensures Sum(values) <= 0.0 ==> forall i :: 0 <= i < |weights| ==> weights[i] == 0.0
    ensures Sum(values) > 0.0 ==>
              forall i :: 0 <= i < |weights| ==> weights[i] == ToFixed2(Share(values[i], Sum(values)))
    ensures Sum(values) > 0.0 ==>
              forall i :: 0 <= i < |weights| ==>
                var exact := values[i] / Sum(values) * 100.0;
                -1_000_000_000_000_000_000_000.0 < exact < 1_000_000_000_000_000_000_000.0 ==>
                  NearestHundredth(weights[i], exact)
    ensures Sum(values) > 0.0 ==>
              100.0 - |values| as real * 0.005 <= Sum(weights) <= 100.0 + |values| as real * 0.005
  {
    var totalValue := 0.0;
    for i := 0 to |values|
      invariant totalValue == Sum(values[..i])
    {
      assert values[..i + 1][..i] == values[..i];
      totalValue := totalValue + values[i];
    }
    assert values[..|values|] == values;
    weights := seq(|values|, i requires 0 <= i < |values| =>
      if totalValue > 0.0 then ToFixed2(Share(values[i], totalValue)) else 0.0);
    if totalValue > 0.0 {
      forall i | 0 <= i < |weights| ensures
        var exact := values[i] / totalValue * 100.0;
        -1_000_000_000_000_000_000_000.0 < exact < 1_000_000_000_000_000_000_000.0 ==>
          NearestHundredth(weights[i], exact)
      {
        var exact := Share(values[i], totalValue);
        if -1_000_000_000_000_000_000_000.0 < exact < 1_000_000_000_000_000_000_000.0 {
          ToFixed2Nearest(exact);
        }
      }
      hide ToFixed2, NearestHundredth;
      RoundedSharesSum(values, weights, totalValue);
      WholeShare(totalValue);
    }
  }

  /** Each rounded share is off by at most half a hundredth, so the sum is off by at most that much per share. */
  lemma {:induction false} RoundedSharesSum(values: seq<real>, weights: seq<real>, total: real)
    requires total > 0.0 && |weights| == |values|
    requires forall i :: 0 <= i < |values| ==> weights[i] == ToFixed2(Share(values[i], total))
    ensures Share(Sum(values), total) - |values| as real * 0.005 <= Sum(weights)
    ensures Sum(weights) <= Share(Sum(values), total) + |values| as real * 0.005
  {
    if values != [] {
      var n := |values| - 1;
      RoundedSharesSum(values[..n], weights[..n], total);
      ToFixed2Close(Share(values[n], total));
      ShareAdds(Sum(values[..n]), values[n], total);
    }
  }

  lemma ShareAdds(a: real, b: real, total: real)
    requires total > 0.0
    ensures Share(a + b, total) == Share(a, total) + Share(b, total)
  {
  }

  /** For non-negative values each weight lies between 0 and 100, and a larger value never gets a smaller weight. */
  lemma WeightsAreOrdered(a: real, b: real, total: real)
    requires 0.0 <= a <= b <= total && total > 0.0
    ensures 0.0 <= ToFixed2(Share(a, total)) <= ToFixed2(Share(b, total)) <= 100.0
  {
    SharesOrdered(a, b, total);
    hide Share;
    RoundingOrdered(Share(a, total), Share(b, total));
  }

  lemma RoundingOrdered(x: real, y: real)
    requires 0.0 <= x <= y <= 100.0
    ensures 0.0 <= ToFixed2(x) <= ToFixed2(y) <= 100.0
  {
    assert 0 <= (x * 100.0 + 0.5).Floor <= (y * 100.0 + 0.5).Floor <= 10000;
  }

  lemma SharesOrdered(a: real, b: real, total: real)
    requires 0.0 <= a <= b <= total && total > 0.0
    ensures 0.0 <= Share(a, total) <= Share(b, total) <= 100.0
  {
    QuotientsOrdered(0.0, a, total);
    QuotientsOrdered(a, b, total);
    QuotientsOrdered(b, total, total);
    WholeShare(total);
  }

  lemma WholeShare(total: real)
    requires total > 0.0
    ensures total / total == 1.0 && 0.0 / total == 0.0
  {
  }

  lemma QuotientsOrdered(a: real, b: real, total: real)
    requires a <= b && total > 0.0
    ensures a / total <= b / total
  {
  }
}
