/** Depth weighting of soil readings (code/utils.py): the layer each sensor
    depth stands for, the normalised layer weights, and the row-wise weighted
    average of readings taken at those depths. Depths are in centimetres and
    modelled as exact reals. */
module SoilLayers {
  import opened Results
  import opened RealSeqs

  /** Lower boundary of layer `i`: halfway to the next depth, or, for the
      deepest sensor, half of its own depth below it. */
  function Boundary(depths: seq<real>, i: nat): real
    requires i < |depths|
  {
    if i + 1 < |depths| then (depths[i] + depths[i + 1]) / 2.0
    else depths[i] + depths[i] / 2.0
  }

  /** Upper boundary of layer `i`: the surface for the top layer, otherwise
      the lower boundary of the layer above. */
  function Top(depths: seq<real>, i: nat): real
    requires i < |depths|
  {
    if i == 0 then 0.0 else Boundary(depths, i - 1)
  }

  /** The loop of `getThicknesses` from index `i` on, with `previous` the
      boundary reached so far (`L_prev`). */
  function ThicknessesFrom(depths: seq<real>, i: nat, previous: real): (t: seq<real>)
    requires i < |depths|
    ensures |t| == |depths| - i
    ensures t[0] == Boundary(depths, i) - previous
    ensures forall k :: 0 < k < |t| ==> t[k] == Boundary(depths, i + k) - Boundary(depths, i + k - 1)
    decreases |depths| - i
  {
    if i == |depths| - 1 then
      [(depths[i] + depths[i] / 2.0) - previous]
    else
      var boundary := (depths[i] + depths[i + 1]) / 2.0;
      [boundary - previous] + ThicknessesFrom(depths, i + 1, boundary)
  }

  /** `getThicknesses`: one layer thickness per depth. An empty depth list
      fails, as `depths[-1]` does in the source. */
  function Thicknesses(depths: seq<real>): (r: Result<seq<real>>)
    ensures r.Success? <==> |depths| > 0
    ensures r.Success? ==> |r.value| == |depths|
    ensures r.Success? ==> forall i :: 0 <= i < |depths| ==> r.value[i] == Boundary(depths, i) - Top(depths, i)
  {
    if |depths| == 0 then Failure(EmptyDepths) else Success(ThicknessesFrom(depths, 0, 0.0))
  }

  /** The thicknesses written out per position: a single depth `d` gives
      `d + d/2`; otherwise the top layer reaches the first midpoint, a middle
      layer spans half the gap between its neighbours, and the bottom layer
      runs from the last midpoint to `d_last + d_last/2`. */
  lemma ThicknessesClosedForm(depths: seq<real>)
    requires |depths| > 0
    ensures var t := Thicknesses(depths).value;
      var n := |depths|;
      && (n == 1 ==> t[0] == depths[0] + depths[0] / 2.0)
      && (n >= 2 ==> t[0] == (depths[0] + depths[1]) / 2.0)
      && (forall i :: 0 < i < n - 1 ==> t[i] == (depths[i + 1] - depths[i - 1]) / 2.0)
      && (n >= 2 ==> t[n - 1] == (depths[n - 1] + depths[n - 1] / 2.0) - (depths[n - 2] + depths[n - 1]) / 2.0)
  {
  }

  lemma {:induction false} ThicknessesFromSum(depths: seq<real>, i: nat, previous: real)
    requires i < |depths|
    ensures Sum(ThicknessesFrom(depths, i, previous)) == Boundary(depths, |depths| - 1) - previous
    decreases |depths| - i
  {
    var t := ThicknessesFrom(depths, i, previous);
    if i == |depths| - 1 {
      assert Sum(t) == t[0] + Sum([]);
    } else {
      var boundary := (depths[i] + depths[i + 1]) / 2.0;
      assert t[1..] == ThicknessesFrom(depths, i + 1, boundary);
      ThicknessesFromSum(depths, i + 1, boundary);
    }
  }

  /** The thicknesses telescope: together they span from the surface down to
      `d_last + d_last/2`. */
  lemma ThicknessesTelescope(depths: seq<real>)
    requires |depths| > 0
    ensures Sum(Thicknesses(depths).value) == TotalDepth(depths)
  {
    ThicknessesFromSum(depths, 0, 0.0);
  }

  predicate StrictlyIncreasing(depths: seq<real>) {
    forall i :: 0 < i < |depths| ==> depths[i - 1] < depths[i]
  }

  lemma StrictlyIncreasingOrdered(depths: seq<real>, i: nat, j: nat)
    requires StrictlyIncreasing(depths)
    requires i < j < |depths|
    ensures depths[i] < depths[j]
    decreases j - i
  {
    if i + 1 < j {
      StrictlyIncreasingOrdered(depths, i, j - 1);
    }
  }

  /** Sensors below the surface at strictly increasing depths give every
      layer a positive thickness. */
  lemma ThicknessesPositive(depths: seq<real>)
    requires |depths| > 0 && 0.0 < depths[0]
    requires StrictlyIncreasing(depths)
    ensures forall i :: 0 <= i < |depths| ==> Thicknesses(depths).value[i] > 0.0
  {
    var n := |depths|;
    forall i | 0 <= i < n
      ensures Boundary(depths, i) - Top(depths, i) > 0.0
    {
      if i > 0 {
        StrictlyIncreasingOrdered(depths, 0, i);
        StrictlyIncreasingOrdered(depths, i - 1, i);
      }
      if 0 < i < n - 1 {
        StrictlyIncreasingOrdered(depths, i - 1, i + 1);
      }
    }
  }

  /** `get_weights_for_soildepths`: the thicknesses divided by their sum.
      NumPy would yield `nan`/`inf` for a zero sum; the model fails instead. */
  function Weights(depths: seq<real>): (r: Result<seq<real>>)
    ensures r.Success? <==> |depths| > 0 && depths[|depths| - 1] != 0.0
    ensures r.Success? ==> |r.value| == |depths|
  {
    if |depths| == 0 then Failure(EmptyDepths)
    else
      var t := Thicknesses(depths).value;
      TotalThicknessZero(depths);
      if Sum(t) == 0.0 then Failure(ZeroTotalWeight)
      else Success(DivideAll(t, Sum(t)))
  }

  /** The weights are normalised: they sum to one. */
  lemma WeightsSumToOne(depths: seq<real>)
    requires Weights(depths).Success?
    ensures Sum(Weights(depths).value) == 1.0
  {
    var t := Thicknesses(depths).value;
    NormalisedWeights(t);
  }

  /** Each weight is its layer's thickness divided by the total depth
      spanned, `d_last + d_last/2`; by the contract of `DivideAll`, the weight
      times that total is the thickness. */
  lemma WeightsProportional(depths: seq<real>)
    requires Weights(depths).Success?
    ensures Weights(depths).value == DivideAll(Thicknesses(depths).value, TotalDepth(depths))
  {
    ThicknessesTelescope(depths);
  }

  /** How far the layers reach below the surface. */
  function TotalDepth(depths: seq<real>): real
    requires |depths| > 0
  {
    depths[|depths| - 1] + depths[|depths| - 1] / 2.0
  }

  /** The thickness sum vanishes exactly when the deepest sensor sits at the surface. */
  lemma TotalThicknessZero(depths: seq<real>)
    requires |depths| > 0
    ensures Sum(Thicknesses(depths).value) == 0.0 <==> depths[|depths| - 1] == 0.0
  {
    ThicknessesTelescope(depths);
  }

  lemma NormalisedWeights(t: seq<real>)
    requires Sum(t) != 0.0
    ensures Sum(DivideAll(t, Sum(t))) == 1.0
  {
    var total := Sum(t);
    SumDivideAll(t, total);
    DivideBySelf(total);
  }

  lemma DivideBySelf(c: real)
    requires c != 0.0
    ensures c / c == 1.0
  {
  }

  predicate Rectangular(data: seq<seq<real>>, width: nat) {
    forall i :: 0 <= i < |data| ==> |data[i]| == width
  }

  /** `calculate_weighted_averages`: per data row, the weighted sum of its
      entries divided by the sum of the weights. A row whose width differs
      from the weights fails (NumPy's shape error). With no rows the result
      is empty, whatever the weights sum to, as NumPy's division of an empty
      array is; otherwise a zero weight sum fails where NumPy would yield
      `nan`/`inf`. */
  function WeightedAverages(data: seq<seq<real>>, weights: seq<real>): (r: Result<seq<real>>)
    ensures r.Success? <==> Rectangular(data, |weights|) && (|data| == 0 || Sum(weights) != 0.0)
    ensures r.Success? ==> |r.value| == |data|
    ensures r.Success? ==>
      forall i :: 0 <= i < |data| ==> r.value[i] * Sum(weights) == Dot(data[i], weights)
  {
    if !Rectangular(data, |weights|) then Failure(ShapeMismatch)
    else if |data| == 0 then Success([])
    else if Sum(weights) == 0.0 then Failure(ZeroTotalWeight)
    else
      var total := Sum(weights);
      Success(seq(|data|, i requires 0 <= i < |data| => Dot(data[i], weights) / total))
  }

  /** With equal non-zero weights the weighted average is the plain mean. */
  lemma UniformWeightsGiveMean(data: seq<seq<real>>, weights: seq<real>, k: real)
    requires |weights| > 0 && k != 0.0
    requires forall j :: 0 <= j < |weights| ==> weights[j] == k
    requires Rectangular(data, |weights|)
    ensures WeightedAverages(data, weights).Success?
    ensures forall i :: 0 <= i < |data| ==>
      WeightedAverages(data, weights).value[i] == Sum(data[i]) / |weights| as real
  {
    SumOfConstant(weights, k);
    var n := |weights| as real;
    forall i | 0 <= i < |data|
      ensures Dot(data[i], weights) / Sum(weights) == Sum(data[i]) / n
    {
      DotConstantRight(data[i], weights, k);
      QuotientOfScaled(Dot(data[i], weights), Sum(weights), Sum(data[i]), n, k);
    }
  }

  /** A row holding the same reading at every depth averages to that reading. */
  lemma ConstantRowAverage(data: seq<seq<real>>, weights: seq<real>, i: nat, c: real)
    requires WeightedAverages(data, weights).Success?
    requires i < |data|
    requires forall j :: 0 <= j < |data[i]| ==> data[i][j] == c
    ensures WeightedAverages(data, weights).value[i] == c
  {
    DotConstantLeft(data[i], weights, c);
  }

  /** Dividing every weight by the same non-zero number leaves every average unchanged. */
  lemma AveragesScaleInvariant(data: seq<seq<real>>, weights: seq<real>, c: real)
    requires c != 0.0
    ensures WeightedAverages(data, DivideAll(weights, c)) == WeightedAverages(data, weights)
  {
    var scaled := DivideAll(weights, c);
    SumDivideAll(weights, c);
    if Rectangular(data, |weights|) && Sum(weights) != 0.0 {
      var a := WeightedAverages(data, scaled).value;
      var b := WeightedAverages(data, weights).value;
      forall i | 0 <= i < |data|
        ensures a[i] == b[i]
      {
        DotDivideAll(data[i], weights, c);
        var d := Dot(data[i], weights);
        var s := Sum(weights);
        CancelCommonDivisor(d, s, c);
      }
      assert a == b;
    }
  }

  /** Averaging with the normalised weights is averaging with the raw
      thicknesses: the normalisation changes no result. */
  lemma WeightsAverageLikeThicknesses(data: seq<seq<real>>, depths: seq<real>)
    requires Weights(depths).Success?
    ensures WeightedAverages(data, Weights(depths).value)
         == WeightedAverages(data, Thicknesses(depths).value)
  {
    var t := Thicknesses(depths).value;
    ThicknessesTelescope(depths);
    AveragesScaleInvariant(data, t, Sum(t));
  }

  /** With non-negative weights, a row's average lies between bounds that
      hold for all its readings. */
  lemma AverageWithinBounds(data: seq<seq<real>>, weights: seq<real>, i: nat, lo: real, hi: real)
    requires WeightedAverages(data, weights).Success?
    requires forall j :: 0 <= j < |weights| ==> 0.0 <= weights[j]
    requires i < |data|
    requires forall j :: 0 <= j < |data[i]| ==> lo <= data[i][j] <= hi
    ensures lo <= WeightedAverages(data, weights).value[i] <= hi
  {
    DotBounds(data[i], weights, lo, hi);
    NonNegativeSum(weights);
    var s := Sum(weights);
    var v := WeightedAverages(data, weights).value[i];
    var d := Dot(data[i], weights);
    assert v * s == d;
    assert 0.0 < s;
    assert lo * s <= d <= hi * s;
    BoundsByPositiveFactor(v, s, d, lo, hi);
  }

  lemma {:induction false} NonNegativeSum(s: seq<real>)
    requires forall j :: 0 <= j < |s| ==> 0.0 <= s[j]
    ensures 0.0 <= Sum(s)
    decreases |s|
  {
    if |s| > 0 {
      NonNegativeSum(s[1..]);
    }
  }

  /** Depth-weighted averaging of sensors at strictly increasing positive
      depths never leaves the range of the readings. */
  lemma DepthWeightedAverageWithinBounds(data: seq<seq<real>>, depths: seq<real>, i: nat, lo: real, hi: real)
    requires |depths| > 0 && 0.0 < depths[0] && StrictlyIncreasing(depths)
    requires Rectangular(data, |depths|)
    requires i < |data|
    requires forall j :: 0 <= j < |data[i]| ==> lo <= data[i][j] <= hi
    ensures Weights(depths).Success?
    ensures WeightedAverages(data, Weights(depths).value).Success?
    ensures lo <= WeightedAverages(data, Weights(depths).value).value[i] <= hi
  {
    if |depths| > 1 {
      StrictlyIncreasingOrdered(depths, 0, |depths| - 1);
    }
    var w := Weights(depths).value;
    var t := Thicknesses(depths).value;
    ThicknessesPositive(depths);
    WeightsSumToOne(depths);
    WeightsProportional(depths);
    DivideAllPositive(t, TotalDepth(depths));
    AverageWithinBounds(data, w, i, lo, hi);
  }
}
