/** A stable in-place sort by a strict order, standing for the library's `sort_by`. */
module StableSort {

  /** Inserts `x` behind everything that does not come strictly after it. */
  function Insert<T>(less: (T, T) -> bool, s: seq<T>, x: T): (r: seq<T>)
    ensures |r| == |s| + 1
  {
    if s != [] && less(x, s[|s| - 1]) then Insert(less, s[..|s| - 1], x) + [s[|s| - 1]]
    else s + [x]
  }

  function Sorted<T>(less: (T, T) -> bool, s: seq<T>): (r: seq<T>)
    ensures |r| == |s|
  {
    if s == [] then [] else Insert(less, Sorted(less, s[..|s| - 1]), s[|s| - 1])
  }

  lemma {:induction false} InsertPermutes<T>(less: (T, T) -> bool, s: seq<T>, x: T)
    ensures multiset(Insert(less, s, x)) == multiset(s) + multiset{x}
  {
    if s != [] && less(x, s[|s| - 1]) {
      assert s == s[..|s| - 1] + [s[|s| - 1]];
      InsertPermutes(less, s[..|s| - 1], x);
    }
  }

  lemma {:induction false} SortedPermutes<T>(less: (T, T) -> bool, s: seq<T>)
    ensures multiset(Sorted(less, s)) == multiset(s)
  {
    if s != [] {
      assert s == s[..|s| - 1] + [s[|s| - 1]];
      SortedPermutes(less, s[..|s| - 1]);
      InsertPermutes(less, Sorted(less, s[..|s| - 1]), s[|s| - 1]);
    }
  }

  lemma {:induction false} InsertIsSplice<T>(less: (T, T) -> bool, s: seq<T>, x: T, j: nat)
    requires j <= |s|
    requires forall k | j <= k < |s| :: less(x, s[k])
    requires j == 0 || !less(x, s[j - 1])
    ensures Insert(less, s, x) == s[..j] + [x] + s[j..]
  {
    if j < |s| {
      var front := s[..|s| - 1];
      InsertIsSplice(less, front, x, j);
      assert front[..j] == s[..j] && front[j..] + [s[|s| - 1]] == s[j..];
    }
  }

  /** One round of the sort: moves `a[i]` left past everything strictly after it. */
  method InsertInPlace<T>(less: (T, T) -> bool, a: array<T>, i: nat)
    requires i < a.Length
    modifies a
    ensures a[..i + 1] == Insert(less, old(a[..i]), old(a[i]))
    ensures forall k | i < k < a.Length :: a[k] == old(a[k])
  {
    var x := a[i];
    var j := i;
    while j > 0 && less(x, a[j - 1])
      invariant 0 <= j <= i
      invariant forall k | 0 <= k < j :: a[k] == old(a[k])
      invariant forall k | j < k <= i :: a[k] == old(a[k - 1])
      invariant forall k | j <= k < i :: less(x, old(a[k]))
      invariant forall k | i < k < a.Length :: a[k] == old(a[k])
    {
      a[j] := a[j - 1];
      j := j - 1;
    }
    a[j] := x;
    ghost var done := old(a[..i]);
    InsertIsSplice(less, done, x, j);
    Spliced(a[..i + 1], done, x, j);
  }

  lemma Spliced<T>(s: seq<T>, done: seq<T>, x: T, j: nat)
    requires j <= |done| && |s| == |done| + 1 && s[j] == x
    requires forall k | 0 <= k < j :: s[k] == done[k]
    requires forall k | j < k < |s| :: s[k] == done[k - 1]
    ensures s == done[..j] + [x] + done[j..]
  {
  }

  method SortInPlace<T>(less: (T, T) -> bool, a: array<T>)
    modifies a
    ensures a[..] == Sorted(less, old(a[..]))
  {
    ghost var was := a[..];
    for i := 0 to a.Length
      invariant a[..i] == Sorted(less, was[..i])
      invariant forall k | i <= k < a.Length :: a[k] == was[k]
    {
      InsertInPlace(less, a, i);
      assert was[..i + 1][..i] == was[..i];
    }
    assert was[..a.Length] == was && a[..a.Length] == a[..];
  }
}
