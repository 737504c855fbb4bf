/** The sift operations of a binary heap, over a prefix of an array.

    The heap is ordered by Tasks.Precedes. Every sift step is one swap of a
    task with its parent; the lemmas here say what one swap does to the order
    as a whole, and the methods repeat it. */
module BinaryHeap {
  import opened Tasks

  function Parent(j: nat): nat
    requires 0 < j
  {
    (j - 1) / 2
  }

  /** The task at j does not precede its parent. */
  predicate EdgeOk(s: seq<Task>, j: int)
    requires 0 < j < |s|
  {
    NoLater(s[Parent(j)], s[j])
  }

  ghost predicate IsHeap(s: seq<Task>) {
    forall j :: 0 < j < |s| ==> EdgeOk(s, j)
  }

  /** The children of i do not precede the parent of i. */
  ghost predicate Bypassed(s: seq<Task>, i: int)
    requires 0 <= i
  {
    forall c :: 0 < c < |s| && 0 < i < |s| && Parent(c) == i ==> NoLater(s[Parent(i)], s[c])
  }

  /** Ordered except that the task at i may precede its ancestors. */
  ghost predicate UpReady(s: seq<Task>, i: int) {
    0 <= i < |s| && Bypassed(s, i) &&
    forall j :: 0 < j < |s| && j != i ==> EdgeOk(s, j)
  }

  /** Ordered except that the task at i may be out of place in either direction. */
  ghost predicate HeapExceptAt(s: seq<Task>, i: int) {
    0 <= i && Bypassed(s, i) &&
    forall j :: 0 < j < |s| && j != i && Parent(j) != i ==> EdgeOk(s, j)
  }

  /** Ordered except that the task at i may be preceded by its children. */
  ghost predicate DownReady(s: seq<Task>, i: int) {
    0 <= i && Bypassed(s, i) &&
    forall j :: 0 < j < |s| && Parent(j) != i ==> EdgeOk(s, j)
  }

  function Swapped(s: seq<Task>, i: nat, j: nat): (r: seq<Task>)
    requires i < |s| && j < |s|
    ensures |r| == |s|
    ensures multiset(r) == multiset(s)
  {
    s[i := s[j]][j := s[i]]
  }

  /** In a heap no task precedes the root. */
  lemma {:induction false} RootIsFirst(s: seq<Task>, k: nat)
    requires IsHeap(s) && k < |s|
    ensures NoLater(s[0], s[k])
  {
    if k > 0 {
      RootIsFirst(s, Parent(k));
      assert EdgeOk(s, k);
    }
  }

  lemma HeapFirst(s: seq<Task>)
    requires IsHeap(s) && |s| > 0
    ensures IsFirst(s[0], multiset(s))
  {
    forall x | x in multiset(s) ensures NoLater(s[0], x) {
      var k :| 0 <= k < |s| && s[k] == x;
      RootIsFirst(s, k);
    }
  }

  /** Changing one key leaves the rest of the heap in order around it. */
  lemma OneKeyChanged(s: seq<Task>, i: nat, t: Task)
    requires IsHeap(s) && i < |s|
    ensures HeapExceptAt(s[i := t], i)
  {
    var r := s[i := t];
    forall j | 0 < j < |r| && j != i && Parent(j) != i ensures EdgeOk(r, j) {
      assert EdgeOk(s, j);
    }
    forall c | 0 < c < |r| && 0 < i && Parent(c) == i ensures NoLater(r[Parent(i)], r[c]) {
      assert EdgeOk(s, c) && EdgeOk(s, i);
    }
  }

  /** A task appended at the end can only be out of place upwards. */
  lemma Appended(s: seq<Task>, t: Task)
    requires IsHeap(s)
    ensures UpReady(s + [t], |s|)
  {
    var r := s + [t];
    forall j | 0 < j < |r| && j != |s| ensures EdgeOk(r, j) {
      assert EdgeOk(s, j);
    }
  }

  lemma PrefixIsHeap(s: seq<Task>, n: nat)
    requires IsHeap(s) && n <= |s|
    ensures IsHeap(s[..n])
  {
    forall j | 0 < j < n ensures EdgeOk(s[..n], j) {
      assert EdgeOk(s, j);
    }
  }

  /** One upward swap moves the only misplaced task to its parent's place. */
  lemma UpStep(s: seq<Task>, j: nat)
    requires UpReady(s, j) && 0 < j && Precedes(s[j], s[Parent(j)])
    ensures UpReady(Swapped(s, Parent(j), j), Parent(j))
  {
    var p := Parent(j);
    var r := Swapped(s, p, j);
    forall k | 0 < k < |r| && k != p ensures EdgeOk(r, k) {
      if k != j { assert EdgeOk(s, k); }
      if Parent(k) == j { assert NoLater(s[p], s[k]); }
    }
    forall c | 0 < c < |r| && 0 < p && Parent(c) == p ensures NoLater(r[Parent(p)], r[c]) {
      assert EdgeOk(s, p);
      if c != j { assert EdgeOk(s, c); }
    }
  }

  /** One downward swap with the child that no sibling precedes. */
  lemma DownStep(s: seq<Task>, i: nat, j: nat)
    requires HeapExceptAt(s, i) && j < |s| && 0 < j && Parent(j) == i
    requires Precedes(s[j], s[i])
    requires forall c :: 0 < c < |s| && Parent(c) == i ==> NoLater(s[j], s[c])
    ensures DownReady(Swapped(s, i, j), j)
  {
    var r := Swapped(s, i, j);
    forall k | 0 < k < |r| && Parent(k) != j ensures EdgeOk(r, k) {
      if k == i {
        assert NoLater(s[Parent(i)], s[j]);
      } else if Parent(k) == i {
        assert NoLater(s[j], s[k]);
      } else {
        assert EdgeOk(s, k);
      }
    }
    forall c | 0 < c < |r| && Parent(c) == j ensures NoLater(r[Parent(j)], r[c]) {
      assert EdgeOk(s, c);
    }
  }

  // ---------- The sift operations on sequences ----------

  /** Swaps the task at j with its parent while it precedes it. */
  function SiftUp(s: seq<Task>, j: nat): (r: seq<Task>)
    requires j < |s|
    ensures |r| == |s|
    decreases j
  {
    if j == 0 || !Precedes(s[j], s[Parent(j)]) then s
    else SiftUp(Swapped(s, Parent(j), j), Parent(j))
  }

  /** The child of i that no other child of i precedes. */
  function BestChild(s: seq<Task>, i: nat): (j: nat)
    requires 2 * i + 1 < |s|
    ensures 0 < j < |s| && Parent(j) == i
    ensures forall c :: 0 < c < |s| && Parent(c) == i ==> NoLater(s[j], s[c])
  {
    if 2 * i + 2 < |s| && Precedes(s[2 * i + 2], s[2 * i + 1]) then 2 * i + 2
    else
      assert forall c :: 0 < c < |s| && Parent(c) == i ==> c == 2 * i + 1 || c == 2 * i + 2;
      2 * i + 1
  }

  /** Of two children with one key the left one is picked. */
  lemma LeftChildWinsTies(s: seq<Task>, i: nat)
    requires 2 * i + 2 < |s| && s[2 * i + 1].priority == s[2 * i + 2].priority
    requires s[2 * i + 1].createdAt == s[2 * i + 2].createdAt
    ensures BestChild(s, i) == 2 * i + 1
  {
  }

  predicate MovesDown(s: seq<Task>, i: nat) {
    2 * i + 1 < |s| && Precedes(s[BestChild(s, i)], s[i])
  }

  /** Swaps the task at i with its best child while that child precedes it. */
  function SiftDown(s: seq<Task>, i: nat): (r: seq<Task>)
    ensures |r| == |s|
    decreases |s| - i
  {
    if MovesDown(s, i) then SiftDown(Swapped(s, i, BestChild(s, i)), BestChild(s, i)) else s
  }

  /** The heap after the key at i changed. */
  function Fixed(s: seq<Task>, i: nat): (r: seq<Task>)
    requires i < |s|
    ensures |r| == |s|
  {
    if MovesDown(s, i) then SiftDown(s, i) else SiftUp(s, i)
  }

  /** The heap without the task at i: the last task takes its place. */
  function Without(s: seq<Task>, i: nat): (r: seq<Task>)
    requires i < |s|
    ensures |r| == |s| - 1
  {
    var last := |s| - 1;
    if i == last then s[..last] else Fixed(s[..last][i := s[last]], i)
  }

  lemma {:induction false} SiftUpRestores(s: seq<Task>, j: nat)
    requires UpReady(s, j)
    ensures IsHeap(SiftUp(s, j))
    ensures multiset(SiftUp(s, j)) == multiset(s)
    decreases j
  {
    if j > 0 && Precedes(s[j], s[Parent(j)]) {
      UpStep(s, j);
      SiftUpRestores(Swapped(s, Parent(j), j), Parent(j));
    } else {
      assert j > 0 ==> EdgeOk(s, j);
    }
  }

  lemma {:induction false} SiftDownRestores(s: seq<Task>, i: nat)
    requires HeapExceptAt(s, i)
    requires DownReady(s, i) || MovesDown(s, i)
    ensures IsHeap(SiftDown(s, i))
    ensures multiset(SiftDown(s, i)) == multiset(s)
    decreases |s| - i
  {
    if MovesDown(s, i) {
      var j := BestChild(s, i);
      DownStep(s, i, j);
      SiftDownRestores(Swapped(s, i, j), j);
    } else {
      ChildrenInPlace(s, i);
    }
  }

  lemma ChildrenInPlace(s: seq<Task>, i: nat)
    requires !MovesDown(s, i)
    ensures forall c :: 0 < c < |s| && Parent(c) == i ==> EdgeOk(s, c)
  {
    forall c | 0 < c < |s| && Parent(c) == i ensures EdgeOk(s, c) {
      assert NoLater(s[BestChild(s, i)], s[c]);
    }
  }

  /** Whatever the new key at i is, one pass down or up restores the heap. */
  lemma FixedRestores(s: seq<Task>, i: nat)
    requires HeapExceptAt(s, i) && i < |s|
    ensures IsHeap(Fixed(s, i))
    ensures multiset(Fixed(s, i)) == multiset(s)
  {
    if MovesDown(s, i) {
      SiftDownRestores(s, i);
    } else {
      ChildrenInPlace(s, i);
      SiftUpRestores(s, i);
    }
  }

  lemma WithoutRestores(s: seq<Task>, i: nat)
    requires IsHeap(s) && i < |s|
    ensures IsHeap(Without(s, i))
    ensures multiset(Without(s, i)) == multiset(s) - multiset{s[i]}
  {
    var last := |s| - 1;
    PrefixIsHeap(s, last);
    assert s == s[..last] + [s[last]];
    if i < last {
      OneKeyChanged(s[..last], i, s[last]);
      FixedRestores(s[..last][i := s[last]], i);
    }
  }

  // ---------- The same in place ----------

  method Swap(a: array<Task>, i: nat, j: nat, ghost n: nat)
    requires i < n && j < n <= a.Length
    modifies a
    ensures a[..n] == Swapped(old(a[..n]), i, j)
  {
    a[i], a[j] := a[j], a[i];
  }

  method Up(a: array<Task>, start: nat, ghost n: nat)
    requires start < n <= a.Length
    modifies a
    ensures a[..n] == SiftUp(old(a[..n]), start)
  {
    var j: nat := start;
    while true
      invariant j < n
      invariant SiftUp(a[..n], j) == SiftUp(old(a[..n]), start)
      decreases j
    {
      // Truncating division makes the root its own parent.
      var i := if j == 0 then 0 else (j - 1) / 2;
      if i == j || !Precedes(a[j], a[i]) {
        break;
      }
      Swap(a, i, j, n);
      j := i;
    }
  }

  /** Picks the child to swap with, and tells whether it precedes the task at i. */
  method PickChild(a: array<Task>, i: nat, n: nat) returns (j: nat, precedes: bool)
    requires 2 * i + 1 < n <= a.Length
    ensures j == BestChild(a[..n], i)
    ensures precedes == MovesDown(a[..n], i)
  {
    j := 2 * i + 1;
    if j + 1 < n && Precedes(a[j + 1], a[j]) {
      j := j + 1;
    }
    precedes := Precedes(a[j], a[i]);
  }

  method Down(a: array<Task>, start: nat, n: nat) returns (moved: bool)
    requires n <= a.Length
    modifies a
    ensures moved == MovesDown(old(a[..n]), start)
    ensures a[..n] == SiftDown(old(a[..n]), start)
  {
    var i := start;
    ghost var s := a[..n];
    while 2 * i + 1 < n
      invariant start <= i
      invariant SiftDown(a[..n], i) == SiftDown(s, start)
      invariant if i == start then a[..n] == s else MovesDown(s, start)
      decreases n - i
    {
      var j, precedes := PickChild(a, i, n);
      if !precedes {
        break;
      }
      Swap(a, i, j, n);
      i := j;
    }
    moved := i > start;
  }

  method Fix(a: array<Task>, i: nat, n: nat)
    requires i < n <= a.Length
    modifies a
    ensures a[..n] == Fixed(old(a[..n]), i)
  {
    var moved := Down(a, i, n);
    if !moved {
      Up(a, i, n);
    }
  }

  /** Takes the task at i out of n tasks; the rest fills the first n - 1 places. */
  method Remove(a: array<Task>, i: nat, n: nat) returns (task: Task)
    requires i < n <= a.Length
    modifies a
    ensures task == old(a[i])
    ensures a[..n - 1] == Without(old(a[..n]), i)
  {
    var last := n - 1;
    if last != i {
      a[i], a[last] := a[last], a[i];
      // Beyond the prefix that is fixed next, and given up with the slice's last place.
      task := a[last];
      assert a[..last] == old(a[..n])[..last][i := old(a[last])];
      Fix(a, i, last);
    } else {
      task := a[last];
      assert a[..last] == a[..n][..last];
    }
  }
}
