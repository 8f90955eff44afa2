/**
  The second half of GCCPhat::Execute: rotate the circular cross-correlation so that lag zero lies
  in the middle, clamp the margin, and pick the lag with the greatest correlation.
 */
module GccPhat {

  /** std::round(n / 2.0) */
  function Half(n: nat): nat {
    (n + 1) / 2
  }

  /** Where the correlation at a lag is stored: at the lag modulo the number of samples. */
  function LagIndex(n: nat, lag: int): (i: nat)
    requires 0 < n
    ensures i < n
  {
    lag % n
  }

  /** Lags from zero up lie at the front, negative lags at the end. */
  lemma LagIndexIs(n: nat, lag: int)
    requires 0 < n && 0 <= lag + n && lag < n
    ensures LagIndex(n, lag) == if lag < 0 then n + lag else lag
  {
    if lag < 0 {
      assert lag == -1 * n + (n + lag);
    }
  }

  /** The correlation looked up for lag a: for an odd number of samples that of lag a + 1. */
  function At(cc: seq<real>, a: int): real
    requires cc != []
  {
    cc[LagIndex(|cc|, a + |cc| % 2)]
  }

  /** The lags within the margin and within half the samples, either way. */
  predicate InWindow(n: nat, margin: nat, b: int) {
    0 <= b + margin && b <= margin && 0 < b + n / 2 && b < n / 2
  }

  /** a is the first lag of the window at which the correlation is greatest. */
  ghost predicate IsPick(cc: seq<real>, margin: nat, a: int)
    requires cc != []
  {
    InWindow(|cc|, margin, a) &&
    (forall b :: InWindow(|cc|, margin, b) ==> At(cc, b) <= At(cc, a)) &&
    forall b :: InWindow(|cc|, margin, b) && b < a ==> At(cc, b) < At(cc, a)
  }

  /** std::max_element on a range: the first of the greatest. */
  method MaxElement(v: seq<real>, first: nat, last: nat) returns (largest: nat)
    requires first < last <= |v|
    ensures first <= largest < last
    ensures forall k :: first <= k < last ==> v[k] <= v[largest]
    ensures forall k :: first <= k < largest ==> v[k] < v[largest]
  {
    largest := first;
    var i := first + 1;
    while i < last
      invariant first <= largest < i <= last
      invariant forall k :: first <= k < i ==> v[k] <= v[largest]
      invariant forall k :: first <= k < largest ==> v[k] < v[largest]
    {
      if v[largest] < v[i] {
        largest := i;
      }
      i := i + 1;
    }
  }

  /** The rotation puts the correlation looked up for lag b at half + b. */
  lemma RotationAt(cc: seq<real>, b: int)
    requires 2 <= |cc| && InWindow(|cc|, |cc|, b)
    ensures 0 <= Half(|cc|) + b < |cc|
    ensures (cc[Half(|cc|)..] + cc[..Half(|cc|)])[Half(|cc|) + b] == At(cc, b)
  {
    LagIndexIs(|cc|, b + |cc| % 2);
  }

  lemma PickOfRotation(cc: seq<real>, shifted: seq<real>, margin: nat, m: nat, largest: nat)
    requires 2 <= |cc| && m <= |cc| - 1 - Half(|cc|)
    requires forall b :: InWindow(|cc|, margin, b) <==> 0 <= b + m && b <= m
    requires shifted == cc[Half(|cc|)..] + cc[..Half(|cc|)]
    requires Half(|cc|) - m <= largest <= Half(|cc|) + m
    requires forall k :: Half(|cc|) - m <= k <= Half(|cc|) + m ==> shifted[k] <= shifted[largest]
    requires forall k :: Half(|cc|) - m <= k < largest ==> shifted[k] < shifted[largest]
    ensures IsPick(cc, margin, largest - Half(|cc|))
  {
    var h := Half(|cc|);
    assert InWindow(|cc|, margin, largest - h);
    RotationAt(cc, largest - h);
    forall b | InWindow(|cc|, margin, b)
      ensures At(cc, b) <= At(cc, largest - h) && (b < largest - h ==> At(cc, b) < At(cc, largest - h))
    {
      RotationAt(cc, b);
      assert shifted[h + b] <= shifted[largest];
    }
  }

  method PickLag(crossCorrelation: seq<real>, margin: nat) returns (argMax: int)
    requires 2 <= |crossCorrelation|
    ensures IsPick(crossCorrelation, margin, argMax)
    ensures -(margin as int) <= argMax <= margin && -(|crossCorrelation| / 2) < argMax < |crossCorrelation| / 2
    ensures forall b :: -(margin as int) <= b <= margin && -(|crossCorrelation| / 2) < b < |crossCorrelation| / 2 ==>
      At(crossCorrelation, b) <= At(crossCorrelation, argMax)
  {
    var sampleCount := |crossCorrelation|;
    var half := (sampleCount + 1) / 2;
    var shifted := [];
    shifted := shifted + crossCorrelation[half..];
    shifted := shifted + crossCorrelation[..half];

    var newMargin: int := margin;
    if half - newMargin < 0 {
      newMargin := half;
    }
    if half + newMargin >= sampleCount {
      newMargin := sampleCount - 1 - half;
    }

    var start := half - newMargin;
    var len := 2 * newMargin + 1;
    var largest := MaxElement(shifted, start, start + len);
    var maxIndex := largest - start;
    argMax := maxIndex - newMargin;

    assert newMargin == if margin <= sampleCount / 2 - 1 then margin else sampleCount / 2 - 1;
    PickOfRotation(crossCorrelation, shifted, margin, newMargin, largest);
  }

  /** The pick is determined by the correlations. */
  lemma PickIsUnique(cc: seq<real>, margin: nat, a: int, b: int)
    requires 2 <= |cc| && IsPick(cc, margin, a) && IsPick(cc, margin, b)
    ensures a == b
  {
    assert At(cc, a) <= At(cc, b) && At(cc, b) <= At(cc, a);
  }

  /** d is the only lag with the greatest correlation. */
  ghost predicate IsPeak(cc: seq<real>, d: int)
    requires cc != []
  {
    forall i :: 0 <= i < |cc| && i != LagIndex(|cc|, d) ==> cc[i] < cc[LagIndex(|cc|, d)]
  }

  /**
    A single peak whose lag lies within the margin and within half the samples is found: with an even
    number of samples the pick is its lag, with an odd number one less, where that lies there.
   */
  lemma PeakIsFound(cc: seq<real>, margin: nat, d: int, a: int)
    requires 2 <= |cc| && -(margin as int) <= d - |cc| % 2 <= margin && -(|cc| / 2) < d - |cc| % 2 < |cc| / 2
    requires IsPick(cc, margin, a) && IsPeak(cc, d)
    ensures a == d - |cc| % 2
  {
    var n := |cc|;
    var e := d - n % 2;
    assert InWindow(n, margin, e) && At(cc, e) == cc[LagIndex(n, d)];
    assert At(cc, e) <= At(cc, a);
    LagIndexIs(n, a + n % 2);
    LagIndexIs(n, d);
  }

  /** The pick is the true lag of a single peak in the window exactly when the number of samples is even. */
  lemma EvenCountsAreExact(cc: seq<real>, margin: nat, d: int, a: int)
    requires 2 <= |cc| && -(margin as int) <= d - |cc| % 2 <= margin && -(|cc| / 2) < d - |cc| % 2 < |cc| / 2
    requires IsPick(cc, margin, a) && IsPeak(cc, d)
    ensures a == d <==> |cc| % 2 == 0
  {
    PeakIsFound(cc, margin, d, a);
  }
}
