/** `Array.prototype.sort` with a numeric comparator `(a, b) => key(a) - key(b)`:
    the array is reordered in place into ascending order of the key. */
module Sorting {

  /** Ascending order of `key` along `s`. */
  predicate SortedBy<T>(s: seq<T>, key: T -> real)
  {
    forall i, j :: 0 <= i < j < |s| ==> key(s[i]) <= key(s[j])
  }

  /** Sorts `a` in place by `key` (insertion sort by adjacent swaps). The
      contract promises order and permutation only, not how ties end up. */
  method SortBy<T>(a: array<T>, key: T -> real)
    modifies a
    ensures SortedBy(a[..], key)
    ensures multiset(a[..]) == old(multiset(a[..]))
  {
    var i := 0;
    while i < a.Length
      invariant 0 <= i <= a.Length
      invariant forall p, q :: 0 <= p < q < i ==> key(a[p]) <= key(a[q])
      invariant multiset(a[..]) == old(multiset(a[..]))
    {
      InsertLast(a, key, i);
      i := i + 1;
    }
  }

  /** Moves `a[i]` down past every larger neighbour, so that `a[..i + 1]`,
      sorted but for its last element before, is sorted after. */
  method InsertLast<T>(a: array<T>, key: T -> real, i: nat)
    requires i < a.Length
    requires forall p, q :: 0 <= p < q < i ==> key(a[p]) <= key(a[q])
    modifies a
    ensures forall p, q :: 0 <= p < q <= i ==> key(a[p]) <= key(a[q])
    ensures multiset(a[..]) == old(multiset(a[..]))
  {
    var j := i;
    while j > 0 && key(a[j - 1]) > key(a[j])
      invariant 0 <= j <= i
      invariant forall p, q :: 0 <= p < q <= i && p != j && q != j ==> key(a[p]) <= key(a[q])
      invariant forall q :: j < q <= i ==> key(a[j]) <= key(a[q])
      invariant multiset(a[..]) == old(multiset(a[..]))
    {
      SwapAdjacent(a, j);
      j := j - 1;
    }
  }

  /** Exchanges `a[j - 1]` and `a[j]`. */
  method SwapAdjacent<T>(a: array<T>, j: nat)
    requires 0 < j < a.Length
    modifies a
    ensures a[j - 1] == old(a[j]) && a[j] == old(a[j - 1])
    ensures forall p :: 0 <= p < a.Length && p != j - 1 && p != j ==> a[p] == old(a[p])
    ensures multiset(a[..]) == old(multiset(a[..]))
  {
    a[j - 1], a[j] := a[j], a[j - 1];
  }

  /** Cutting a sorted sequence at `k` splits its elements into the `k` with
      the smallest keys and the rest. */
  lemma SortedPrefixIsSmallest<T>(s: seq<T>, key: T -> real, k: nat)
    requires SortedBy(s, key) && k <= |s|
    ensures multiset(s[..k]) + multiset(s[k..]) == multiset(s)
    ensures forall x, y :: x in s[..k] && y in s[k..] ==> key(x) <= key(y)
  {
    assert s == s[..k] + s[k..];
    forall x, y | x in s[..k] && y in s[k..]
      ensures key(x) <= key(y)
    {
      var i :| 0 <= i < k && s[i] == x;
      var j :| 0 <= j < |s| - k && s[k..][j] == y;
      assert s[k + j] == y;
    }
  }

  /** Once a sequence is sorted, its first `k` elements have keys no larger
      than any element of the original left out of them. */
  lemma SelectionIsSmallest<T>(before: seq<T>, after: seq<T>, key: T -> real, k: nat)
    requires multiset(after) == multiset(before) && SortedBy(after, key) && k <= |after|
    ensures forall i, y :: 0 <= i < k && y in multiset(before) - multiset(after[..k]) ==> key(after[i]) <= key(y)
  {
    SortedPrefixIsSmallest(after, key, k);
    forall i, y | 0 <= i < k && y in multiset(before) - multiset(after[..k])
      ensures key(after[i]) <= key(y)
    {
      assert after[i] in after[..k];
      assert y in multiset(after[k..]);
    }
  }

  /** Dropping one element keeps a sequence sorted. */
  lemma RemoveKeepsSorted<T>(s: seq<T>, key: T -> real, j: nat)
    requires SortedBy(s, key) && j < |s|
    ensures SortedBy(s[..j] + s[j + 1..], key)
  {
  }

  /** Taking the same element out of two arrangements of one multiset leaves
      arrangements of one multiset. */
  lemma RemoveSameElement<T>(s1: seq<T>, s2: seq<T>, j: nat)
    requires multiset(s1) == multiset(s2)
    requires |s1| > 0 && j < |s2| && s2[j] == s1[0]
    ensures multiset(s1[1..]) == multiset(s2[..j] + s2[j + 1..])
  {
    var x := s1[0];
    assert s2 == s2[..j] + [x] + s2[j + 1..];
    assert s1 == [x] + s1[1..];
    calc {
      multiset(s1[1..]);
      multiset(s1) - multiset{x};
      multiset(s2) - multiset{x};
      multiset(s2[..j] + s2[j + 1..]);
    }
  }

  /** Two sorted arrangements of the same elements agree on the key at every
      position: whatever order ties are left in, the keys read the same. */
  lemma {:induction false} SortedPermutationsAgreeOnKeys<T>(s1: seq<T>, s2: seq<T>, key: T -> real)
    requires SortedBy(s1, key) && SortedBy(s2, key)
    requires multiset(s1) == multiset(s2)
    ensures |s1| == |s2|
    ensures forall i :: 0 <= i < |s1| ==> key(s1[i]) == key(s2[i])
  {
    assert |s1| == |multiset(s1)| == |multiset(s2)| == |s2|;
    if |s1| > 0 {
      var x := s1[0];
      assert x in multiset(s2);
      var j :| 0 <= j < |s2| && s2[j] == x;
      assert s2[0] in multiset(s1);
      assert key(s2[0]) == key(x);
      var rest1, rest2 := s1[1..], s2[..j] + s2[j + 1..];
      RemoveSameElement(s1, s2, j);
      RemoveKeepsSorted(s2, key, j);
      SortedPermutationsAgreeOnKeys(rest1, rest2, key);
      forall i | 1 <= i < |s1|
        ensures key(s1[i]) == key(s2[i])
      {
        assert s1[i] == rest1[i - 1];
        if i - 1 < j {
          assert rest2[i - 1] == s2[i - 1];
        } else {
          assert rest2[i - 1] == s2[i];
        }
      }
    }
  }
}
