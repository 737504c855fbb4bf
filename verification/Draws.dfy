/** Selection by cumulative weight: which draw selects which index. */
module Draws {

  function Sum(ws: seq<int>): int {
    if ws == [] then 0 else Sum(ws[..|ws| - 1]) + ws[|ws| - 1]
  }

  function SumReal(xs: seq<real>): real {
    if xs == [] then 0.0 else SumReal(xs[..|xs| - 1]) + xs[|xs| - 1]
  }

  predicate NonNegative(ws: seq<int>) {
    forall i :: 0 <= i < |ws| ==> ws[i] >= 0
  }

  predicate NonNegativeReal(xs: seq<real>) {
    forall i :: 0 <= i < |xs| ==> xs[i] >= 0.0
  }

  lemma {:induction false} SumMonotonic(ws: seq<int>, i: nat, j: nat)
    requires NonNegative(ws) && i <= j <= |ws|
    ensures Sum(ws[..i]) <= Sum(ws[..j])
    decreases j
  {
    if i < j {
      SumMonotonic(ws, i, j - 1);
      assert ws[..j][..j - 1] == ws[..j - 1];
    }
  }

  lemma {:induction false} SumRealMonotonic(xs: seq<real>, i: nat, j: nat)
    requires NonNegativeReal(xs) && i <= j <= |xs|
    ensures SumReal(xs[..i]) <= SumReal(xs[..j])
    decreases j
  {
    if i < j {
      SumRealMonotonic(xs, i, j - 1);
      assert xs[..j][..j - 1] == xs[..j - 1];
    }
  }

  // ---------- Integer draws ----------

  /** The first index whose cumulative weight exceeds the draw; the length when none does. */
  method SelectByWeight(ws: seq<int>, draw: int) returns (i: nat)
    ensures i <= |ws|
    ensures forall j :: 1 <= j <= i ==> Sum(ws[..j]) <= draw
    ensures i < |ws| ==> draw < Sum(ws[..i + 1])
  {
    var cumulative := 0;
    i := 0;
    while i < |ws|
      invariant i <= |ws| && cumulative == Sum(ws[..i])
      invariant forall j :: 1 <= j <= i ==> Sum(ws[..j]) <= draw
    {
      assert ws[..i + 1][..i] == ws[..i];
      cumulative := cumulative + ws[i];
      if draw < cumulative {
        return;
      }
      i := i + 1;
    }
  }

  /** The draw falls in the stretch that belongs to index i. */
  predicate SelectedBy(ws: seq<int>, draw: int, i: nat) {
    i < |ws| && Sum(ws[..i]) <= draw < Sum(ws[..i + 1])
  }

  /** With weights that are not negative, a draw below their total selects exactly
      one index: the loop stops there, and what follows the loop is unreachable. */
  lemma DrawSelectsOne(ws: seq<int>, draw: int, i: nat)
    requires NonNegative(ws) && 0 <= draw < Sum(ws)
    requires i <= |ws|
    requires forall j :: 1 <= j <= i ==> Sum(ws[..j]) <= draw
    requires i < |ws| ==> draw < Sum(ws[..i + 1])
    ensures SelectedBy(ws, draw, i)
    ensures forall j: nat :: SelectedBy(ws, draw, j) ==> j == i
  {
    assert ws[..|ws|] == ws;
    assert i > 0 ==> Sum(ws[..i]) <= draw;
    forall j: nat | SelectedBy(ws, draw, j) ensures j == i {
      if j > i {
        SumMonotonic(ws, i + 1, j);
      }
    }
  }

  ghost function DrawsFor(ws: seq<int>, i: nat): set<int> {
    set draw | 0 <= draw < Sum(ws) && SelectedBy(ws, draw, i)
  }

  predicate Within(x: int, lo: int, hi: int) {
    lo <= x < hi
  }

  ghost function Interval(lo: int, hi: int): set<int> {
    set x | lo <= x < hi && Within(x, lo, hi)
  }

  lemma {:induction false} IntervalSize(lo: int, hi: int)
    requires lo <= hi
    ensures |Interval(lo, hi)| == hi - lo
    decreases hi - lo
  {
    var s := Interval(lo, hi);
    if lo < hi {
      IntervalSize(lo, hi - 1);
      assert s == Interval(lo, hi - 1) + {hi - 1};
    } else {
      assert s == {};
    }
  }

  /** Exactly proportional: of the draws below the total, weights[i] select index i. */
  lemma DrawsAreProportional(ws: seq<int>, i: nat)
    requires NonNegative(ws) && i < |ws|
    ensures |DrawsFor(ws, i)| == ws[i]
  {
    var lo, hi := Sum(ws[..i]), Sum(ws[..i + 1]);
    assert ws[..i + 1][..i] == ws[..i];
    SumMonotonic(ws, 0, i);
    SumMonotonic(ws, i + 1, |ws|);
    assert ws[..|ws|] == ws;
    IntervalSize(lo, hi);
    assert DrawsFor(ws, i) == Interval(lo, hi);
  }

  // ---------- Real draws ----------

  /** As SelectByWeight, but the cumulative score need only reach the draw. */
  method SelectByScore(xs: seq<real>, draw: real) returns (i: nat)
    ensures i <= |xs|
    ensures forall j :: 1 <= j <= i ==> SumReal(xs[..j]) < draw
    ensures i < |xs| ==> draw <= SumReal(xs[..i + 1])
  {
    var cumulative := 0.0;
    i := 0;
    while i < |xs|
      invariant i <= |xs| && cumulative == SumReal(xs[..i])
      invariant forall j :: 1 <= j <= i ==> SumReal(xs[..j]) < draw
    {
      assert xs[..i + 1][..i] == xs[..i];
      cumulative := cumulative + xs[i];
      if draw <= cumulative {
        return;
      }
      i := i + 1;
    }
  }

  ghost predicate StopsAt(xs: seq<real>, draw: real, i: nat) {
    i <= |xs| &&
    (forall j :: 1 <= j <= i ==> SumReal(xs[..j]) < draw) &&
    (i < |xs| ==> draw <= SumReal(xs[..i + 1]))
  }

  /** With scores that are not negative and a draw below their total, the loop
      always stops inside, and what it picks has a positive score, except that the
      draw 0 picks the first index even when its score is 0. Index i is picked by
      the draws of an interval as long as its score. */
  lemma ScoreSelectsPositive(xs: seq<real>, draw: real, i: nat)
    requires NonNegativeReal(xs) && 0.0 <= draw < SumReal(xs)
    requires StopsAt(xs, draw, i)
    ensures i < |xs|
    ensures xs[i] == 0.0 <==> draw == 0.0 && xs[0] == 0.0
    ensures i > 0 ==> SumReal(xs[..i]) < draw <= SumReal(xs[..i]) + xs[i]
    ensures i == 0 ==> 0.0 <= draw <= xs[0]
  {
    assert xs[..|xs|] == xs;
    assert xs[..i + 1][..i] == xs[..i];
    assert xs[..1][..0] == [];
    if i > 0 {
      assert SumReal(xs[..i]) < draw;
      SumRealMonotonic(xs, 0, i);
    }
  }
}
