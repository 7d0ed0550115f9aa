/** `array.sort((a, b) => b.updatedAt - a.updatedAt)`, used by the note store
    and the vault session: an in-place stable sort, largest key first. */
module Sorting {

  /** Every element's key is at least the key of every element after it. */
  ghost predicate SortedDesc<T>(s: seq<T>, key: T -> int) {
    forall i, j :: 0 <= i < j < |s| ==> key(s[i]) >= key(s[j])
  }

  /** `perm` lists `n` distinct positions below `n`. */
  ghost predicate IsPermutation(perm: seq<int>, n: int) {
    && |perm| == n
    && (forall k :: 0 <= k < n ==> 0 <= perm[k] < n)
    && (forall k, l :: 0 <= k < l < n ==> perm[k] != perm[l])
  }

  /** `r[k]` is `s[perm[k]]`, and elements with equal keys keep the order they
      had in `s`. */
  ghost predicate StableBy<T>(perm: seq<int>, r: seq<T>, s: seq<T>, key: T -> int) {
    && |r| == |s|
    && IsPermutation(perm, |s|)
    && (forall k :: 0 <= k < |r| ==> r[k] == s[perm[k]])
    && (forall k, l :: 0 <= k < l < |r| && key(r[k]) == key(r[l]) ==> perm[k] < perm[l])
  }

  /** `r` is a rearrangement of `s` that keeps ties in their input order: what the
      specification of `Array.prototype.sort` requires since ECMAScript 2019. */
  ghost predicate Stable<T>(r: seq<T>, s: seq<T>, key: T -> int) {
    exists perm :: StableBy(perm, r, s, key)
  }

  /** A stable rearrangement of a sequence whose elements have distinct ids has
      distinct ids too. */
  lemma StableKeepsDistinct<T>(r: seq<T>, s: seq<T>, key: T -> int, id: T -> string)
    requires Stable(r, s, key)
    requires forall k, l :: 0 <= k < l < |s| ==> id(s[k]) != id(s[l])
    ensures forall k, l :: 0 <= k < l < |r| ==> id(r[k]) != id(r[l])
  {
    var perm :| StableBy(perm, r, s, key);
    forall k, l | 0 <= k < l < |r|
      ensures id(r[k]) != id(r[l])
    {
      if perm[k] > perm[l] {
        assert id(s[perm[l]]) != id(s[perm[k]]);
      }
    }
  }

  /** `a[k]` is `s[perm[k]]` for a permutation `perm`: where each element came from. */
  ghost predicate Tracks<T>(a: seq<T>, s: seq<T>, perm: seq<int>) {
    && |a| == |s|
    && IsPermutation(perm, |s|)
    && (forall k :: 0 <= k < |a| ==> a[k] == s[perm[k]])
  }

  /** Below `n`, any two positions other than `skip` whose keys are equal hold
      elements in their original order. */
  ghost predicate TiesKept<T>(a: seq<T>, perm: seq<int>, n: int, skip: int, key: T -> int)
    requires n <= |a| && n <= |perm|
  {
    forall p, q :: 0 <= p < q < n && p != skip && q != skip && key(a[p]) == key(a[q]) ==> perm[p] < perm[q]
  }

  /** Exchanging two positions of the array and of `perm` keeps the tracking. */
  lemma SwapTracks<T>(a: seq<T>, s: seq<T>, perm: seq<int>, x: int, y: int)
    requires Tracks(a, s, perm) && 0 <= x < |a| && 0 <= y < |a|
    ensures Tracks(a[x := a[y]][y := a[x]], s, perm[x := perm[y]][y := perm[x]])
  {
    var perm' := perm[x := perm[y]][y := perm[x]];
    forall k, l | 0 <= k < l < |perm'|
      ensures perm'[k] != perm'[l]
    {
      var k0 := if k == x then y else if k == y then x else k;
      var l0 := if l == x then y else if l == y then x else l;
      assert perm'[k] == perm[k0] && perm'[l] == perm[l0];
      if k0 > l0 {
        assert perm[l0] != perm[k0];
      }
    }
  }

  /** Moving the inserted element one place left, past a smaller key, keeps the
      ties among the other elements in order. */
  lemma SwapTies<T>(a: seq<T>, perm: seq<int>, i: int, j: int, key: T -> int)
    requires 0 < j <= i < |a| && |perm| == |a|
    requires TiesKept(a, perm, i + 1, j, key)
    ensures TiesKept(a[j - 1 := a[j]][j := a[j - 1]], perm[j - 1 := perm[j]][j := perm[j - 1]], i + 1, j - 1, key)
  {
    var a', perm' := a[j - 1 := a[j]][j := a[j - 1]], perm[j - 1 := perm[j]][j := perm[j - 1]];
    forall p, q | 0 <= p < q < i + 1 && p != j - 1 && q != j - 1 && key(a'[p]) == key(a'[q])
      ensures perm'[p] < perm'[q]
    {
      var p0 := if p == j then j - 1 else p;
      var q0 := if q == j then j - 1 else q;
      assert a'[p] == a[p0] && a'[q] == a[q0] && perm'[p] == perm[p0] && perm'[q] == perm[q0];
    }
  }

  /** The keys below `i` are in descending order. */
  ghost predicate SortedBelow<T>(a: seq<T>, i: int, key: T -> int)
    requires i <= |a|
  {
    forall p, q :: 0 <= p < q < i ==> key(a[p]) >= key(a[q])
  }

  /** Positions from `i` on have not moved, and those below `i` came from below `i`. */
  ghost predicate MovedBelow(perm: seq<int>, i: int)
    requires 0 <= i <= |perm|
  {
    && (forall k :: i <= k < |perm| ==> perm[k] == k)
    && (forall k :: 0 <= k < i ==> perm[k] < i)
  }

  /** The state between outer passes: the prefix below `i` is sorted with its ties
      in order, and the rest has not moved yet. */
  ghost predicate SortState<T>(a: seq<T>, s: seq<T>, perm: seq<int>, i: int, key: T -> int) {
    && 0 <= i <= |a|
    && SortedBelow(a, i, key)
    && Tracks(a, s, perm)
    && MovedBelow(perm, i)
    && TiesKept(a, perm, i, i, key)
  }

  /** Inside pass `i`, the element that started at `i` is now at `j`; every key
      after it up to `i` is smaller, and the others up to `i` are in order. */
  ghost predicate Inserting<T>(a: seq<T>, perm: seq<int>, i: int, j: int, key: T -> int)
    requires 0 <= j <= i < |a| && |perm| == |a|
  {
    && (forall p, q :: 0 <= p < q <= i && p != j && q != j ==> key(a[p]) >= key(a[q]))
    && (forall q :: j < q <= i ==> key(a[j]) > key(a[q]))
    && (forall k :: i < k < |a| ==> perm[k] == k)
    && perm[j] == i && (forall k :: 0 <= k <= i && k != j ==> perm[k] < i)
  }

  /** The state inside pass `i`. */
  ghost predicate InsertState<T>(a: seq<T>, s: seq<T>, perm: seq<int>, i: int, j: int, key: T -> int) {
    && 0 <= j <= i < |a|
    && Tracks(a, s, perm)
    && Inserting(a, perm, i, j, key)
    && TiesKept(a, perm, i + 1, j, key)
  }

  lemma InsertStart<T>(a: seq<T>, s: seq<T>, perm: seq<int>, i: int, key: T -> int)
    requires SortState(a, s, perm, i, key) && i < |a|
    ensures InsertState(a, s, perm, i, i, key)
  {
  }

  /** One swap to the left, past a smaller key. */
  lemma InsertStep<T>(a: seq<T>, s: seq<T>, perm: seq<int>, i: int, j: int, key: T -> int)
    requires InsertState(a, s, perm, i, j, key) && j > 0 && key(a[j - 1]) < key(a[j])
    ensures InsertState(a[j - 1 := a[j]][j := a[j - 1]], s, perm[j - 1 := perm[j]][j := perm[j - 1]], i, j - 1, key)
  {
    SwapTracks(a, s, perm, j - 1, j);
    SwapTies(a, perm, i, j, key);
  }

  /** The pass stops at the front or before a key that is not smaller. */
  lemma InsertDone<T>(a: seq<T>, s: seq<T>, perm: seq<int>, i: int, j: int, key: T -> int)
    requires InsertState(a, s, perm, i, j, key) && (j == 0 || key(a[j - 1]) >= key(a[j]))
    ensures SortState(a, s, perm, i + 1, key)
  {
    forall p, q | 0 <= p < q <= i
      ensures key(a[p]) >= key(a[q])
    {
      if q == j && p < j - 1 {
        assert key(a[p]) >= key(a[j - 1]);
      }
    }
  }

  /** Insertion sort by adjacent swaps; the result is a permutation of the input
      in descending key order, with ties in their input order. */
  method SortDescending<T>(a: array<T>, key: T -> int)
    modifies a
    ensures SortedDesc(a[..], key)
    ensures multiset(a[..]) == multiset(old(a[..]))
    ensures Stable(a[..], old(a[..]), key)
  {
    ghost var s := a[..];
    ghost var perm := SortStart(s, key);
    var i := 0;
    while i < a.Length
      invariant SortState(a[..], s, perm, i, key)
      invariant multiset(a[..]) == multiset(s)
    {
      perm := Insert(a, i, key, s, perm);
      i := i + 1;
    }
    SortDone(a[..], s, perm, key);
  }

  /** Nothing has moved yet: each element is where it started. */
  lemma SortStart<T>(s: seq<T>, key: T -> int) returns (perm: seq<int>)
    ensures SortState(s, s, perm, 0, key)
  {
    perm := seq(|s|, k => k);
  }

  /** After the last pass the whole array is sorted, a stable rearrangement of the input. */
  lemma SortDone<T>(a: seq<T>, s: seq<T>, perm: seq<int>, key: T -> int)
    requires SortState(a, s, perm, |a|, key)
    ensures SortedDesc(a, key) && Stable(a, s, key)
  {
    assert StableBy(perm, a, s, key);
  }

  /** One pass of the insertion sort: `a[i]` moves left past every smaller key,
      never past an equal one, so the prefix up to `i` becomes sorted and keeps
      its ties in input order. `perm` tracks where each element came from. */
  method Insert<T>(a: array<T>, i: int, key: T -> int, ghost s: seq<T>, ghost perm: seq<int>)
    returns (ghost perm': seq<int>)
    requires SortState(a[..], s, perm, i, key) && i < a.Length
    modifies a
    ensures SortState(a[..], s, perm', i + 1, key)
    ensures multiset(a[..]) == multiset(old(a[..]))
  {
    perm' := perm;
    InsertStart(a[..], s, perm, i, key);
    var j := i;
    while j > 0 && key(a[j - 1]) < key(a[j])
      invariant InsertState(a[..], s, perm', i, j, key)
      invariant multiset(a[..]) == multiset(old(a[..]))
    {
      InsertStep(a[..], s, perm', i, j, key);
      Swap(a, j - 1, j);
      perm' := perm'[j - 1 := perm'[j]][j := perm'[j - 1]];
      j := j - 1;
    }
    InsertDone(a[..], s, perm', i, j, key);
  }

  /** Exchanges two elements, keeping the array's multiset of elements. */
  method Swap<T>(a: array<T>, x: int, y: int)
    requires 0 <= x < a.Length && 0 <= y < a.Length
    modifies a
    ensures a[..] == old(a[..])[x := old(a[y])][y := old(a[x])]
    ensures multiset(a[..]) == multiset(old(a[..]))
  {
    a[x], a[y] := a[y], a[x];
  }

  /** Sorts a copy of `s`: a fresh array is filled, sorted in place, and read back. */
  method SortedCopy<T>(s: seq<T>, key: T -> int) returns (r: seq<T>)
    ensures SortedDesc(r, key)
    ensures multiset(r) == multiset(s)
    ensures Stable(r, s, key)
  {
    var a := new T[|s|](i requires 0 <= i < |s| => s[i]);
    assert a[..] == s;
    SortDescending(a, key);
    r := a[..];
  }
}
