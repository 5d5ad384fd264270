/** Pivot-low detection over a series of low prices (the nested
    `findPivotLows` of the stop-loss route). Prices are exact reals: the
    scan only compares them with `<`. */
module PivotScan {

  /** A pivot low: its position in the low-price array and the low there. */
  datatype Pivot = Pivot(index: nat, value: real)

  /** The value of JavaScript's `Math.min` over finite numbers: the
      minimum, or `+Infinity` for an empty argument list. */
  datatype Extended = Finite(v: real) | PosInfinity

  /** `x < m` where `m` may be `+Infinity`. */
  predicate Below(x: real, m: Extended) {
    m.PosInfinity? || x < m.v
  }

  /** `x < Math.min(...left) && x < Math.min(...right)`. */
  predicate BelowBothMinima(x: real, left: seq<real>, right: seq<real>) {
    Below(x, Min(left)) && Below(x, Min(right))
  }

  /** `Math.min(...s)`. */
  function Min(s: seq<real>): (m: Extended)
    ensures m.PosInfinity? <==> s == []
    ensures m.Finite? ==> exists k :: 0 <= k < |s| && s[k] == m.v
    ensures m.Finite? ==> forall k :: 0 <= k < |s| ==> m.v <= s[k]
  {
    if s == [] then PosInfinity
    else
      var rest := Min(s[1..]);
      if rest.PosInfinity? || s[0] <= rest.v then Finite(s[0])
      else
        assert forall k :: 0 <= k < |s[1..]| ==> s[1..][k] == s[k + 1];
        rest
  }

  /** Being below the minimum of a window is being below every element of
      it; for an empty window this holds of every `x`. */
  lemma BelowMinIffBelowAll(x: real, s: seq<real>)
    ensures Below(x, Min(s)) <==> forall k :: 0 <= k < |s| ==> x < s[k]
  {
  }

  /** Index `i` is a pivot low: it lies in the scanned range
      `[leftBars, |lows| - rightBars)` and its low is strictly below every
      low among the `leftBars` before it and the `rightBars` after it. */
  predicate IsPivotLow(lows: seq<real>, i: int, leftBars: nat, rightBars: nat) {
    && leftBars <= i < |lows| - rightBars
    && (forall j :: i - leftBars <= j < i ==> lows[i] < lows[j])
    && (forall j :: i < j <= i + rightBars ==> lows[i] < lows[j])
  }

  /** The pivot lows with an index below `n`, in index order: what the
      scan has collected once its counter reaches `n`. */
  function PivotsBelow(lows: seq<real>, leftBars: nat, rightBars: nat, n: nat): seq<Pivot>
  {
    if n == 0 then []
    else
      PivotsBelow(lows, leftBars, rightBars, n - 1)
      + (if IsPivotLow(lows, n - 1, leftBars, rightBars) then [Pivot(n - 1, lows[n - 1])] else [])
  }

  /** Every pivot low of `lows`, in index order. */
  function PivotLows(lows: seq<real>, leftBars: nat, rightBars: nat): seq<Pivot> {
    PivotsBelow(lows, leftBars, rightBars, |lows|)
  }

  /** Some element of `ps` sits at index `i`. */
  predicate HasPivotAt(ps: seq<Pivot>, i: int) {
    exists k :: 0 <= k < |ps| && ps[k].index == i
  }

  /** Indices strictly increase along `ps`. */
  predicate Ascending(ps: seq<Pivot>) {
    forall a, b :: 0 <= a < b < |ps| ==> ps[a].index < ps[b].index
  }

  /** The scan: `i` runs from `leftBars` while `i < |lows| - rightBars`,
      compares `lows[i]` with the minima of the left and right windows
      and appends the pivots it finds. */
  method FindPivotLows(lows: seq<real>, leftBars: nat, rightBars: nat) returns (pivots: seq<Pivot>)
    ensures pivots == PivotLows(lows, leftBars, rightBars)
  {
    pivots := [];
    NoPivotsBetween(lows, leftBars, rightBars, 0, leftBars);
    var i: int := leftBars;
    while i < |lows| - rightBars
      invariant leftBars <= i
      invariant i <= |lows| - rightBars || i == leftBars
      invariant pivots == PivotsBelow(lows, leftBars, rightBars, i)
    {
      var left := lows[i - leftBars .. i];
      var right := lows[i + 1 .. i + 1 + rightBars];
      var isPivot := BelowBothMinima(lows[i], left, right);
      WindowTest(lows, leftBars, rightBars, i, left, right, isPivot);
      if isPivot {
        pivots := pivots + [Pivot(i, lows[i])];
      }
      assert pivots == PivotsBelow(lows, leftBars, rightBars, i + 1);
      i := i + 1;
    }
    if i <= |lows| {
      NoPivotsBetween(lows, leftBars, rightBars, i, |lows|);
    } else {
      NoPivotsBetween(lows, leftBars, rightBars, |lows|, i);
    }
  }

  /** The scan's test on the two window slices decides `IsPivotLow`. */
  lemma WindowTest(lows: seq<real>, leftBars: nat, rightBars: nat, i: int, left: seq<real>, right: seq<real>, test: bool)
    requires leftBars <= i < |lows| - rightBars
    requires left == lows[i - leftBars .. i] && right == lows[i + 1 .. i + 1 + rightBars]
    requires test == BelowBothMinima(lows[i], left, right)
    ensures test <==> IsPivotLow(lows, i, leftBars, rightBars)
  {
    BelowMinIffBelowAll(lows[i], left);
    BelowMinIffBelowAll(lows[i], right);
    assert forall j :: i - leftBars <= j < i ==> lows[j] == left[j - (i - leftBars)];
    assert forall j :: i < j <= i + rightBars ==> lows[j] == right[j - (i + 1)];
  }

  /** Extending the bound over indices that are no pivots adds nothing. */
  lemma {:induction false} NoPivotsBetween(lows: seq<real>, leftBars: nat, rightBars: nat, n: nat, m: nat)
    requires n <= m
    requires forall i :: n <= i < m ==> !IsPivotLow(lows, i, leftBars, rightBars)
    ensures PivotsBelow(lows, leftBars, rightBars, m) == PivotsBelow(lows, leftBars, rightBars, n)
  {
    if n < m {
      NoPivotsBetween(lows, leftBars, rightBars, n, m - 1);
    }
  }

  /** Everything collected below `n` is a pivot low below `n`, recorded
      with its own low. */
  lemma {:induction false} PivotsBelowSound(lows: seq<real>, leftBars: nat, rightBars: nat, n: nat)
    ensures forall k :: 0 <= k < |PivotsBelow(lows, leftBars, rightBars, n)| ==>
      var p := PivotsBelow(lows, leftBars, rightBars, n)[k];
      p.index < n && IsPivotLow(lows, p.index, leftBars, rightBars) && p.value == lows[p.index]
  {
    if n > 0 {
      PivotsBelowSound(lows, leftBars, rightBars, n - 1);
    }
  }

  /** Every pivot low below `n` is collected. */
  lemma {:induction false} PivotsBelowComplete(lows: seq<real>, leftBars: nat, rightBars: nat, n: nat)
    ensures forall i :: 0 <= i < n && IsPivotLow(lows, i, leftBars, rightBars) ==>
      HasPivotAt(PivotsBelow(lows, leftBars, rightBars, n), i)
  {
    if n > 0 {
      PivotsBelowComplete(lows, leftBars, rightBars, n - 1);
      var prev := PivotsBelow(lows, leftBars, rightBars, n - 1);
      var ps := PivotsBelow(lows, leftBars, rightBars, n);
      assert ps[..|prev|] == prev;
      forall i | 0 <= i < n && IsPivotLow(lows, i, leftBars, rightBars)
        ensures HasPivotAt(ps, i)
      {
        if i < n - 1 {
          var k :| 0 <= k < |prev| && prev[k].index == i;
          assert ps[k] == prev[k];
        } else {
          assert ps[|prev|].index == i;
        }
      }
    }
  }

  /** The collected pivots are in strictly increasing index order. */
  lemma {:induction false} PivotsBelowAscending(lows: seq<real>, leftBars: nat, rightBars: nat, n: nat)
    ensures Ascending(PivotsBelow(lows, leftBars, rightBars, n))
  {
    if n > 0 {
      PivotsBelowAscending(lows, leftBars, rightBars, n - 1);
      PivotsBelowSound(lows, leftBars, rightBars, n - 1);
    }
  }

  /** Soundness of the scan: every returned pivot lies in the scanned
      range, carries the low at its index, and that low is strictly below
      both windows. */
  lemma PivotLowsSound(lows: seq<real>, leftBars: nat, rightBars: nat)
    ensures forall p :: p in PivotLows(lows, leftBars, rightBars) ==>
      && leftBars <= p.index < |lows| - rightBars
      && p.value == lows[p.index]
      && (forall j :: p.index - leftBars <= j < p.index ==> p.value < lows[j])
      && (forall j :: p.index < j <= p.index + rightBars ==> p.value < lows[j])
  {
    PivotsBelowSound(lows, leftBars, rightBars, |lows|);
  }

  /** Completeness and soundness together: an index appears in the result
      exactly when it is a pivot low. */
  lemma PivotLowsExactly(lows: seq<real>, leftBars: nat, rightBars: nat, i: int)
    ensures HasPivotAt(PivotLows(lows, leftBars, rightBars), i) <==> IsPivotLow(lows, i, leftBars, rightBars)
  {
    PivotsBelowSound(lows, leftBars, rightBars, |lows|);
    PivotsBelowComplete(lows, leftBars, rightBars, |lows|);
  }

  /** The result is in strictly increasing index order, so no index
      occurs twice. */
  lemma PivotLowsAscending(lows: seq<real>, leftBars: nat, rightBars: nat)
    ensures Ascending(PivotLows(lows, leftBars, rightBars))
    ensures forall a, b :: 0 <= a < |PivotLows(lows, leftBars, rightBars)| && 0 <= b < |PivotLows(lows, leftBars, rightBars)| && a != b ==>
      PivotLows(lows, leftBars, rightBars)[a].index != PivotLows(lows, leftBars, rightBars)[b].index
  {
    PivotsBelowAscending(lows, leftBars, rightBars, |lows|);
  }

  /** A series no longer than both windows together has no pivot low. */
  lemma PivotLowsEmptyWhenShort(lows: seq<real>, leftBars: nat, rightBars: nat)
    requires |lows| <= leftBars + rightBars
    ensures PivotLows(lows, leftBars, rightBars) == []
  {
    NoPivotsBetween(lows, leftBars, rightBars, 0, |lows|);
  }

  /** Ties are not pivots: a neighbour in either window with the same low
      keeps `i` out of the result. */
  lemma TiesAreNotPivots(lows: seq<real>, leftBars: nat, rightBars: nat, i: int, j: int)
    requires 0 <= i < |lows|
    requires i - leftBars <= j < i || i < j <= i + rightBars
    requires 0 <= j < |lows| && lows[j] == lows[i]
    ensures !HasPivotAt(PivotLows(lows, leftBars, rightBars), i)
  {
    PivotLowsExactly(lows, leftBars, rightBars, i);
  }

  /** With a non-empty right window, a series whose lows never rise from
      one index to the next has no pivot low. */
  lemma NonIncreasingHasNoPivots(lows: seq<real>, leftBars: nat, rightBars: nat)
    requires rightBars >= 1
    requires forall k :: 0 < k < |lows| ==> lows[k] <= lows[k - 1]
    ensures PivotLows(lows, leftBars, rightBars) == []
  {
    forall i | 0 <= i < |lows|
      ensures !IsPivotLow(lows, i, leftBars, rightBars)
    {
      if leftBars <= i < |lows| - rightBars {
        assert lows[i + 1] <= lows[i];
      }
    }
    NoPivotsBetween(lows, leftBars, rightBars, 0, |lows|);
  }

  /** A worked scan with windows of two: a series with two troughs yields
      exactly those two troughs, in index order. */
  lemma ScanExample()
    ensures PivotLows([9.0, 8.0, 7.0, 8.0, 9.0, 8.0, 7.0, 6.0, 7.0, 8.0], 2, 2)
      == [Pivot(2, 7.0), Pivot(7, 6.0)]
  {
    var lows := [9.0, 8.0, 7.0, 8.0, 9.0, 8.0, 7.0, 6.0, 7.0, 8.0];
    // each index between the troughs has a lower neighbour in its window
    assert lows[2] < lows[3] && lows[3] < lows[4] && lows[6] < lows[5] && lows[7] < lows[6];
    assert !IsPivotLow(lows, 3, 2, 2) && !IsPivotLow(lows, 4, 2, 2);
    assert !IsPivotLow(lows, 5, 2, 2) && !IsPivotLow(lows, 6, 2, 2);
    assert IsPivotLow(lows, 2, 2, 2) && IsPivotLow(lows, 7, 2, 2);
    NoPivotsBetween(lows, 2, 2, 0, 2);
    NoPivotsBetween(lows, 2, 2, 3, 7);
    NoPivotsBetween(lows, 2, 2, 8, 10);
  }
}
