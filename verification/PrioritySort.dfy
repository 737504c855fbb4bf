/** The bubble sort that orders tasks for redistribution. */
module PrioritySort {
  import opened Tasks

  /** The tasks of one priority, in their order. */
  function OfPriority(s: seq<Task>, p: int): seq<Task> {
    if s == [] then []
    else OfPriority(s[..|s| - 1], p) + (if s[|s| - 1].priority == p then [s[|s| - 1]] else [])
  }

  ghost predicate NonIncreasing(s: seq<Task>) {
    forall i, j :: 0 <= i < j < |s| ==> s[i].priority >= s[j].priority
  }

  /** Tasks of equal priority keep their order; nothing is added or lost. */
  ghost predicate KeepsOrderWithin(s: seq<Task>, t: seq<Task>) {
    forall p :: OfPriority(s, p) == OfPriority(t, p)
  }

  lemma {:induction false} OfPriorityConcat(a: seq<Task>, b: seq<Task>, p: int)
    ensures OfPriority(a + b, p) == OfPriority(a, p) + OfPriority(b, p)
    decreases |b|
  {
    if b == [] {
      assert a + b == a;
    } else {
      assert (a + b)[..|a + b| - 1] == a + b[..|b| - 1];
      OfPriorityConcat(a, b[..|b| - 1], p);
    }
  }

  function SwappedAt(s: seq<Task>, j: nat): (r: seq<Task>)
    requires j + 1 < |s|
    ensures |r| == |s| && multiset(r) == multiset(s)
  {
    s[j := s[j + 1]][j + 1 := s[j]]
  }

  /** Swapping neighbours of different priority disturbs no priority. */
  lemma SwapKeepsOrderWithin(s: seq<Task>, j: nat)
    requires j + 1 < |s| && s[j].priority != s[j + 1].priority
    ensures KeepsOrderWithin(SwappedAt(s, j), s)
  {
    var left, right := s[..j], s[j + 2..];
    var x, y := s[j], s[j + 1];
    assert s == left + [x, y] + right;
    assert SwappedAt(s, j) == left + [y, x] + right;
    forall p ensures OfPriority(SwappedAt(s, j), p) == OfPriority(s, p) {
      OfPriorityConcat(left + [x, y], right, p);
      OfPriorityConcat(left + [y, x], right, p);
      OfPriorityConcat(left, [x, y], p);
      OfPriorityConcat(left, [y, x], p);
      assert [x, y][..1] == [x] && [y, x][..1] == [y];
    }
  }

  /** Everything from m on is in place: it comes after all the rest and is sorted. */
  ghost predicate SettledFrom(s: seq<Task>, m: int) {
    forall i, j :: 0 <= i < j < |s| && m <= j ==> s[i].priority >= s[j].priority
  }

  /** The task at j has the lowest priority up to there. */
  ghost predicate LowestAt(s: seq<Task>, j: int) {
    forall i :: 0 <= i < j < |s| ==> s[i].priority >= s[j].priority
  }

  lemma BubbleStep(s: seq<Task>, m: nat, j: nat)
    requires SettledFrom(s, m) && LowestAt(s, j) && j + 1 < m <= |s|
    ensures var r := if s[j].priority < s[j + 1].priority then SwappedAt(s, j) else s;
            SettledFrom(r, m) && LowestAt(r, j + 1) && KeepsOrderWithin(r, s)
  {
    if s[j].priority < s[j + 1].priority {
      SwapKeepsOrderWithin(s, j);
    }
  }

  method SwapNeighbours(a: array<Task>, j: nat)
    requires j + 1 < a.Length
    modifies a
    ensures a[..] == SwappedAt(old(a[..]), j)
  {
    a[j], a[j + 1] := a[j + 1], a[j];
  }

  /** The inner loop: carries the lowest priority of the first m tasks to place m - 1. */
  method BubblePass(a: array<Task>, m: nat)
    requires 1 <= m <= a.Length && SettledFrom(a[..], m)
    modifies a
    ensures SettledFrom(a[..], m - 1)
    ensures KeepsOrderWithin(a[..], old(a[..]))
    ensures multiset(a[..]) == multiset(old(a[..]))
  {
    var j := 0;
    ghost var s := a[..];
    while j < m - 1
      invariant j <= m - 1
      invariant SettledFrom(a[..], m)
      invariant LowestAt(a[..], j)
      invariant KeepsOrderWithin(a[..], s)
      invariant multiset(a[..]) == multiset(s)
    {
      BubbleStep(a[..], m, j);
      if a[j].priority < a[j + 1].priority {
        SwapNeighbours(a, j);
      }
      j := j + 1;
    }
  }

  method SortTasksByPriority(a: array<Task>)
    modifies a
    ensures NonIncreasing(a[..])
    ensures KeepsOrderWithin(a[..], old(a[..]))
    ensures multiset(a[..]) == multiset(old(a[..]))
  {
    var i := 0;
    while i < a.Length - 1
      invariant 0 <= i && (i < a.Length || a.Length == 0)
      invariant SettledFrom(a[..], a.Length - i)
      invariant KeepsOrderWithin(a[..], old(a[..]))
      invariant multiset(a[..]) == multiset(old(a[..]))
    {
      BubblePass(a, a.Length - i);
      i := i + 1;
    }
  }

  // ---------- The result is determined ----------

  lemma {:induction false} OfPriorityMember(s: seq<Task>, p: int, k: nat)
    requires k < |s| && s[k].priority == p
    ensures OfPriority(s, p) != []
    decreases |s|
  {
    if k < |s| - 1 {
      OfPriorityMember(s[..|s| - 1], p, k);
    }
  }

  lemma {:induction false} OfPriorityNonempty(s: seq<Task>, p: int) returns (k: nat)
    requires OfPriority(s, p) != []
    ensures k < |s| && s[k].priority == p
    decreases |s|
  {
    if s[|s| - 1].priority == p {
      k := |s| - 1;
    } else {
      k := OfPriorityNonempty(s[..|s| - 1], p);
    }
  }

  lemma OfPriorityHead(s: seq<Task>, p: int)
    requires s != []
    ensures var all, rest := OfPriority(s, p), OfPriority(s[1..], p);
            if s[0].priority == p then all != [] && all[0] == s[0] && all[1..] == rest else all == rest
  {
    assert s == [s[0]] + s[1..] && [s[0]][..0] == [];
    OfPriorityConcat([s[0]], s[1..], p);
    assert OfPriority(s, p) == (if s[0].priority == p then [s[0]] else []) + OfPriority(s[1..], p);
  }

  lemma SameHead(s: seq<Task>, t: seq<Task>)
    requires NonIncreasing(s) && NonIncreasing(t) && KeepsOrderWithin(s, t)
    requires s != []
    ensures t != [] && s[0] == t[0]
  {
    var p := s[0].priority;
    OfPriorityMember(s, p, 0);
    assert OfPriority(t, p) != [];
    var k := OfPriorityNonempty(t, p);
    var q := t[0].priority;
    OfPriorityMember(t, q, 0);
    assert OfPriority(s, q) != [];
    var j := OfPriorityNonempty(s, q);
    assert p == q;
    OfPriorityHead(s, p);
    OfPriorityHead(t, p);
  }

  /** Sorting by priority and keeping order within each priority leaves no choice:
      any two such arrangements of the same tasks are the same sequence. */
  lemma {:induction false} SortIsDetermined(s: seq<Task>, t: seq<Task>)
    requires NonIncreasing(s) && NonIncreasing(t) && KeepsOrderWithin(s, t)
    ensures s == t
    decreases |s|
  {
    if s == [] {
      if t != [] { OfPriorityMember(t, t[0].priority, 0); }
    } else {
      SameHead(s, t);
      forall p ensures OfPriority(s[1..], p) == OfPriority(t[1..], p) {
        OfPriorityHead(s, p);
        OfPriorityHead(t, p);
        assert OfPriority(s, p) == OfPriority(t, p);
      }
      SortIsDetermined(s[1..], t[1..]);
      assert s == [s[0]] + s[1..] && t == [t[0]] + t[1..];
    }
  }
}
