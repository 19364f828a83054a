/**
 * The collector's own heapsort of machine words.  `a` is the array the caller passes with its
 * length; every method works on it in place.
 */
module Heapsort {

  /** C's division, which truncates toward zero, by a positive divisor. */
  function TruncDiv(n: int, d: int): (q: int)
    requires d > 0
    ensures n >= 0 ==> q * d <= n < q * d + d
    ensures n <= 0 ==> q * d - d < n <= q * d
  {
    if n >= 0 then n / d else -((-n) / d)
  }

  predicate Sorted(s: seq<nat>) {
    forall i, j :: 0 <= i <= j < |s| ==> s[i] <= s[j]
  }

  predicate Permutation(s: seq<nat>, t: seq<nat>) {
    multiset(s) == multiset(t)
  }

  function Parent(k: int): (p: int)
    requires k > 0
    ensures 0 <= p < k && (k == 2 * p + 1 || k == 2 * p + 2)
  {
    (k - 1) / 2
  }

  /** Every cell in `1..=last` whose parent is at `first` or later is at most that parent. */
  predicate HeapFrom(s: seq<nat>, first: int, last: int) {
    forall k :: 0 < k <= last < |s| && first <= Parent(k) ==> s[k] <= s[Parent(k)]
  }

  /**
   * The heap with a hole at `root`: only the children of `root` may exceed their parent, and
   * they do not exceed their grandparent.
   */
  predicate HeapExcept(s: seq<nat>, first: int, last: int, root: int) {
    && (forall k :: 0 < k <= last < |s| && first <= Parent(k) && Parent(k) != root
         ==> s[k] <= s[Parent(k)])
    && (root > 0 && first <= Parent(root) ==>
          forall k :: 0 < k <= last < |s| && Parent(k) == root ==> s[k] <= s[Parent(root)])
  }

  function Swapped(s: seq<nat>, i: int, j: int): (t: seq<nat>)
    requires 0 <= i < |s| && 0 <= j < |s|
  {
    s[i := s[j]][j := s[i]]
  }

  lemma SwapPermutes(s: seq<nat>, i: int, j: int)
    requires 0 <= i < |s| && 0 <= j < |s|
    ensures Permutation(Swapped(s, i, j), s)
  {
    var t := s[i := s[j]];
    assert multiset(t) == multiset(s)[s[i] := multiset(s)[s[i]] - 1][s[j] := multiset(s[i := s[j]])[s[j]]];
  }

  /** The root of a heap is its greatest element. */
  lemma {:induction false} RootIsGreatest(s: seq<nat>, last: int, k: int)
    requires 0 <= k <= last < |s| && HeapFrom(s, 0, last)
    ensures s[k] <= s[0]
  {
    if k > 0 { RootIsGreatest(s, last, Parent(k)); }
  }

  predicate AtMost(s: seq<nat>, n: int, bound: nat) {
    forall i :: 0 <= i < n <= |s| ==> s[i] <= bound
  }

  /** Permuting a sequence only among its first `n` cells keeps a bound on those cells. */
  lemma PermutedPrefixBounded(s: seq<nat>, t: seq<nat>, n: int, bound: nat)
    requires |s| == |t| && 0 <= n <= |s| && s[n..] == t[n..] && Permutation(s, t)
    requires AtMost(s, n, bound)
    ensures AtMost(t, n, bound)
  {
    assert s == s[..n] + s[n..] && t == t[..n] + t[n..];
    assert multiset(s) == multiset(s[..n]) + multiset(s[n..]);
    assert multiset(t) == multiset(t[..n]) + multiset(t[n..]);
    assert multiset(s[..n]) == multiset(s) - multiset(s[n..]);
    assert multiset(t[..n]) == multiset(t) - multiset(t[n..]);
    forall i | 0 <= i < n ensures t[i] <= bound {
      assert t[..n][i] in multiset(t[..n]);
      assert t[i] in multiset(s[..n]);
    }
  }

  /** No cell of `1..=last` with parent `root` exceeds `bound`. */
  predicate ChildrenAtMost(s: seq<nat>, last: int, root: int, bound: nat) {
    forall k :: 0 < k <= last < |s| && Parent(k) == root ==> s[k] <= bound
  }

  predicate SameOutside(s: seq<nat>, t: seq<nat>, first: int, last: int) {
    && |s| == |t|
    && forall k :: 0 <= k < |s| && !(first <= k <= last) ==> s[k] == t[k]
  }

  lemma HoleAtStart(s: seq<nat>, first: int, last: int)
    requires 0 <= first && HeapFrom(s, first + 1, last)
    ensures HeapExcept(s, first, last, first)
  {
  }

  /** Replacing the out-of-place element of a heap by swapping it down one level. */
  lemma SwapDown(s: seq<nat>, first: int, last: int, root: int, child: int)
    requires 0 <= first <= root < child <= last < |s| && Parent(child) == root
    requires HeapExcept(s, first, last, root) && s[root] < s[child]
    requires ChildrenAtMost(s, last, root, s[child])
    ensures HeapExcept(Swapped(s, root, child), first, last, child)
  {
  }

  lemma NoLargerChild(s: seq<nat>, first: int, last: int, root: int)
    requires 0 <= first <= root < |s| && HeapExcept(s, first, last, root)
    requires ChildrenAtMost(s, last, root, s[root])
    ensures HeapFrom(s, first, last)
  {
  }

  lemma NoChildren(s: seq<nat>, last: int, root: int)
    requires 0 <= root < |s| && root * 2 + 1 > last
    ensures ChildrenAtMost(s, last, root, s[root])
  {
  }

  lemma LargerChild(s: seq<nat>, last: int, root: int, child: int)
    requires 0 <= root && child <= last < |s|
    requires child == root * 2 + 1 || child == root * 2 + 2
    requires if child == root * 2 + 1 then child + 1 <= last ==> s[child + 1] <= s[child]
             else s[child - 1] <= s[child]
    ensures ChildrenAtMost(s, last, root, s[child]) && Parent(child) == root
  {
  }

  lemma ChildrenBound(s: seq<nat>, last: int, root: int, bound: nat, larger: nat)
    requires ChildrenAtMost(s, last, root, bound) && bound <= larger
    ensures ChildrenAtMost(s, last, root, larger)
  {
  }

  lemma Unmoved(s: seq<nat>, first: int, last: int)
    ensures Permutation(s, s) && SameOutside(s, s, first, last)
  {
  }

  lemma SwapStays(s: seq<nat>, was: seq<nat>, first: int, last: int, i: int, j: int)
    requires 0 <= first <= i <= last < |s| && first <= j <= last
    requires Permutation(s, was) && SameOutside(s, was, first, last)
    ensures Permutation(Swapped(s, i, j), was) && SameOutside(Swapped(s, i, j), was, first, last)
  {
    SwapPermutes(s, i, j);
  }

  method Swap(a: array<nat>, i: int, j: int)
    requires 0 <= i < a.Length && 0 <= j < a.Length
    modifies a
    ensures a[..] == Swapped(old(a[..]), i, j)
    ensures Permutation(a[..], old(a[..]))
  {
    SwapPermutes(a[..], i, j);
    a[i], a[j] := a[j], a[i];
  }

  /** Restores the heap on `start..=end` when only `start` may be out of place. */
  method SiftDown(a: array<nat>, start: int, end: int)
    requires 0 <= start < a.Length && end < a.Length
    requires HeapFrom(a[..], start + 1, end)
    modifies a
    ensures HeapFrom(a[..], start, end)
    ensures Permutation(a[..], old(a[..]))
    ensures SameOutside(a[..], old(a[..]), start, end)
  {
    hide HeapFrom, HeapExcept, Permutation, Swapped, ChildrenAtMost, SameOutside;
    var root := start;
    HoleAtStart(a[..], start, end);
    Unmoved(a[..], start, end);
    while root * 2 + 1 <= end
      invariant start <= root < a.Length
      invariant HeapExcept(a[..], start, end, root)
      invariant Permutation(a[..], old(a[..])) && SameOutside(a[..], old(a[..]), start, end)
      decreases end - root
    {
      var child := root * 2 + 1;
      if child + 1 <= end && a[child] < a[child + 1] {
        child := child + 1;
      }
      LargerChild(a[..], end, root, child);
      if a[root] < a[child] {
        SwapDown(a[..], start, end, root, child);
        SwapStays(a[..], old(a[..]), start, end, root, child);
        Swap(a, root, child);
        root := child;
      } else {
        ChildrenBound(a[..], end, root, a[child], a[root]);
        NoLargerChild(a[..], start, end, root);
        return;
      }
    }
    NoChildren(a[..], end, root);
    NoLargerChild(a[..], start, end, root);
  }

  method Heapify(a: array<nat>)
    modifies a
    ensures HeapFrom(a[..], 0, a.Length - 1)
    ensures Permutation(a[..], old(a[..]))
  {
    var start := TruncDiv(a.Length - 2, 2);
    while start >= 0
      invariant -1 <= start
      invariant HeapFrom(a[..], start + 1, a.Length - 1)
      invariant Permutation(a[..], old(a[..]))
    {
      SiftDown(a, start, a.Length - 1);
      start := start - 1;
    }
  }

  /** What the second phase keeps: a heap up to `end`, then the greatest elements in order. */
  predicate Settled(s: seq<nat>, end: int) {
    && -1 <= end < |s|
    && HeapFrom(s, 0, end)
    && Sorted(s[end + 1..])
    && (end + 1 < |s| ==> AtMost(s, end + 1, s[end + 1]))
  }

  /** Moving the root behind the heap, then re-heaping the rest, settles one more element. */
  lemma SettleOne(s: seq<nat>, t: seq<nat>, u: seq<nat>, end: int)
    requires Settled(s, end) && end > 0 && t == Swapped(s, end, 0)
    requires |u| == |t| && Permutation(u, t) && HeapFrom(u, 0, end - 1)
    requires SameOutside(u, t, 0, end - 1)
    ensures Settled(u, end - 1)
  {
    forall k | 0 <= k < end ensures t[k] <= s[0] {
      RootIsGreatest(s, end, if k == 0 then end else k);
    }
    assert u[end..] == t[end..];
    PermutedPrefixBounded(t, u, end, s[0]);
    assert u[end] == u[end..][0] == s[0];
    assert u[end..] == [s[0]] + s[end + 1..];
  }

  lemma HeapIsSettled(s: seq<nat>)
    requires HeapFrom(s, 0, |s| - 1)
    ensures Settled(s, |s| - 1)
  {
  }

  /** After the root has gone behind the heap, only the new root may be out of place. */
  lemma RootReplaced(s: seq<nat>, end: int)
    requires Settled(s, end) && end > 0
    ensures HeapFrom(Swapped(s, end, 0), 1, end - 1)
  {
  }

  lemma SettledIsSorted(s: seq<nat>, end: int)
    requires Settled(s, end) && end <= 0
    ensures Sorted(s)
  {
    assert s != [] ==> s[0..] == s;
  }

  lemma PermutationTrans(s: seq<nat>, t: seq<nat>, u: seq<nat>)
    requires Permutation(u, t) && Permutation(t, s)
    ensures Permutation(u, s)
  {
  }

  method HeapsortWords(a: array<nat>)
    modifies a
    ensures Sorted(a[..])
    ensures Permutation(a[..], old(a[..]))
  {
    hide HeapFrom, Permutation, Swapped, SameOutside, Sorted, Settled;
    Heapify(a);
    var end := a.Length - 1;
    HeapIsSettled(a[..]);
    while end > 0
      invariant -1 <= end < a.Length
      invariant Settled(a[..], end)
      invariant Permutation(a[..], old(a[..]))
    {
      ghost var s := a[..];
      RootReplaced(s, end);
      Swap(a, end, 0);
      ghost var t := a[..];
      end := end - 1;
      SiftDown(a, 0, end);
      SettleOne(s, t, a[..], end + 1);
      PermutationTrans(s, t, a[..]);
      PermutationTrans(old(a[..]), s, a[..]);
    }
    SettledIsSorted(a[..], end);
  }
}
