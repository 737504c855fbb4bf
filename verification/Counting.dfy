/** Sums over maps and over sequences, and how one update changes them. */
module Counting {
  import opened Tasks

  ghost function MapSum<K(!new)>(m: map<K, nat>): nat
    decreases |m|
  {
    if m == map[] then 0
    else
      var k :| k in m;
      m[k] + MapSum(m - {k})
  }

  /** Any key may be taken out first. */
  lemma {:induction false} MapSumTakeOut<K(!new)>(m: map<K, nat>, k: K)
    requires k in m
    ensures MapSum(m) == m[k] + MapSum(m - {k})
    decreases |m|
  {
    var first :| first in m && MapSum(m) == m[first] + MapSum(m - {first});
    if first != k {
      MapSumTakeOut(m - {first}, k);
      MapSumTakeOut(m - {k}, first);
      assert m - {first} - {k} == m - {k} - {first};
    }
  }

  lemma BumpAddsOne<K(!new)>(m: map<K, nat>, k: K)
    ensures MapSum(Bump(m, k)) == MapSum(m) + 1
  {
    MapSumTakeOut(Bump(m, k), k);
    assert Bump(m, k) - {k} == m - {k};
    if k in m {
      MapSumTakeOut(m, k);
    } else {
      assert m - {k} == m;
    }
  }

  function Total<W>(ws: seq<W>, f: W -> int): int {
    if ws == [] then 0 else Total(ws[..|ws| - 1], f) + f(ws[|ws| - 1])
  }

  lemma {:induction false} TotalUpdate<W>(ws: seq<W>, f: W -> int, k: nat, w: W)
    requires k < |ws|
    ensures Total(ws[k := w], f) == Total(ws, f) - f(ws[k]) + f(w)
    decreases |ws|
  {
    var n := |ws| - 1;
    if k < n {
      assert ws[k := w][..n] == ws[..n][k := w];
      TotalUpdate(ws[..n], f, k, w);
    } else {
      assert ws[k := w][..n] == ws[..n];
    }
  }

  lemma {:induction false} TotalBounds<W>(ws: seq<W>, f: W -> int, high: int)
    requires forall w :: w in ws ==> 0 <= f(w) <= high
    ensures 0 <= Total(ws, f) <= |ws| * high
    ensures forall w :: w in ws ==> f(w) <= Total(ws, f)
    decreases |ws|
  {
    if ws != [] {
      var before, last := ws[..|ws| - 1], ws[|ws| - 1];
      assert ws == before + [last];
      TotalBounds(before, f, high);
      assert |ws| * high == |before| * high + high;
    }
  }
}
