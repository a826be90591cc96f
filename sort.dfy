// Sorting a table of (index, value) entries by value so that a caller can
// visit the indices in value order (engine/sort.h). The source sorts with
// `std::sort`, which is not stable; here the entries are sorted in place by
// insertion, and the contracts promise only what `std::sort` promises.
module Sort {

  datatype Entry = Entry(index: nat, value: int)

  /** `x` may come before `y`: ascending for `sort`, descending for `rsort`. */
  predicate InOrder(x: Entry, y: Entry, descending: bool)
  {
    if descending then x.value >= y.value else x.value <= y.value
  }

  predicate Sorted(s: seq<Entry>, descending: bool)
  {
    forall p, q :: 0 <= p < q < |s| ==> InOrder(s[p], s[q], descending)
  }

  predicate HasIndex(s: seq<Entry>, k: nat)
  {
    exists j :: 0 <= j < |s| && s[j].index == k
  }

  /**
   * Every index 0 .. |s|-1 occurs; with |s| entries this makes the indices a
   * permutation of 0 .. |s|-1.
   */
  predicate IndexPermutation(s: seq<Entry>)
  {
    (forall j :: 0 <= j < |s| ==> s[j].index < |s|) &&
    (forall k: nat :: k < |s| ==> HasIndex(s, k))
  }

  /** Rearranging the entries keeps the indices a permutation of 0 .. n-1. */
  lemma PermutationKeepsIndices(a: seq<Entry>, b: seq<Entry>)
    requires multiset(a) == multiset(b) && IndexPermutation(a)
    ensures IndexPermutation(b)
  {
    assert |a| == |multiset(a)| == |multiset(b)| == |b|;
    forall j | 0 <= j < |b| ensures b[j].index < |b| {
      assert b[j] in multiset(a);
    }
    forall k: nat | k < |b|
      ensures HasIndex(b, k)
    {
      assert HasIndex(a, k);
      var i :| 0 <= i < |a| && a[i].index == k;
      assert a[i] in multiset(a);
      assert a[i] in multiset(b);
      var j :| 0 <= j < |b| && b[j] == a[i];
    }
  }

  class IndexSort {
    const size: nat
    const data: array<Entry>

    ghost predicate Valid()
      reads this, data
    {
      data.Length == size && IndexPermutation(data[..])
    }

    /** Entry `i` holds index `i`; the values are placeholders until set. */
    constructor (l: nat)
      ensures Valid() && fresh(data) && size == l
      ensures forall i :: 0 <= i < size ==> data[i].index == i
    {
      size := l;
      var a := new Entry[l](_ => Entry(0, 0));
      var i := 0;
      while i < l
        invariant 0 <= i <= l
        invariant forall k :: 0 <= k < i ==> a[k].index == k
      {
        a[i] := Entry(i, 0);
        i := i + 1;
      }
      data := a;
      new;
      forall k: nat | k < size ensures HasIndex(data[..], k) {
        assert data[..][k].index == k;
      }
    }

    /** Entry `i` of the current order (the source's `operator[]`, read side). */
    function At(i: nat): (e: Entry)
      requires i < data.Length
      reads data
      ensures e in data[..]
    {
      data[i]
    }

    /** Writes the value of entry `i` (the source's `operator[]`, write side). */
    method SetValue(i: nat, v: int)
      requires Valid() && i < size
      modifies data
      ensures Valid()
      ensures data[..] == old(data[..])[i := Entry(old(data[i]).index, v)]
    {
      ghost var before := data[..];
      data[i] := Entry(data[i].index, v);
      forall k: nat | k < size ensures HasIndex(data[..], k) {
        assert HasIndex(before, k);
        var j :| 0 <= j < size && before[j].index == k;
        assert data[..][j].index == k;
      }
    }

    method Sort()
      requires Valid()
      modifies data
      ensures Valid() && Sorted(data[..], false)
      ensures multiset(data[..]) == multiset(old(data[..]))
    {
      SortBy(false);
    }

    method RSort()
      requires Valid()
      modifies data
      ensures Valid() && Sorted(data[..], true)
      ensures multiset(data[..]) == multiset(old(data[..]))
    {
      SortBy(true);
    }

    method SortBy(descending: bool)
      requires Valid()
      modifies data
      ensures Valid() && Sorted(data[..], descending)
      ensures multiset(data[..]) == multiset(old(data[..]))
    {
      ghost var before := data[..];
      var i := 1;
      while i < size
        invariant 1 <= i || size == 0
        invariant i <= size || size == 0
        invariant Sorted(data[..if i <= size then i else size], descending)
        invariant multiset(data[..]) == multiset(before)
      {
        Insert(i, descending);
        i := i + 1;
      }
      PermutationKeepsIndices(before, data[..]);
      assert data[..if i <= size then i else size] == data[..];
    }

    /** Moves entry `i` left until it is in order with its left neighbour. */
    method Insert(i: nat, descending: bool)
      requires data.Length == size && i < size
      requires Sorted(data[..i], descending)
      modifies data
      ensures Sorted(data[..i + 1], descending)
      ensures multiset(data[..]) == multiset(old(data[..]))
    {
      var j := i;
      while j > 0 && !InOrder(data[j - 1], data[j], descending)
        invariant 0 <= j <= i
        invariant multiset(data[..]) == multiset(old(data[..]))
        invariant SortedExcept(data[..], i, j, descending)
      {
        ghost var s := data[..];
        SwapStep(s, i, j, descending);
        data[j - 1], data[j] := data[j], data[j - 1];
        assert data[..] == s[j - 1 := s[j]][j := s[j - 1]];
        j := j - 1;
      }
      InsertDone(data[..], i, j, descending);
    }
  }

  /** The first `i + 1` entries are in order, except for pairs ending at `j`. */
  predicate SortedExcept(s: seq<Entry>, i: nat, j: nat, descending: bool)
    requires i < |s|
  {
    forall p, q :: 0 <= p < q <= i && q != j ==> InOrder(s[p], s[q], descending)
  }

  /** Swapping the moving entry with its left neighbour moves the gap left. */
  lemma SwapStep(s: seq<Entry>, i: nat, j: nat, descending: bool)
    requires 0 < j <= i < |s|
    requires SortedExcept(s, i, j, descending) && !InOrder(s[j - 1], s[j], descending)
    ensures SortedExcept(s[j - 1 := s[j]][j := s[j - 1]], i, j - 1, descending)
  {
  }

  lemma InsertDone(s: seq<Entry>, i: nat, j: nat, descending: bool)
    requires j <= i < |s| && SortedExcept(s, i, j, descending)
    requires j == 0 || InOrder(s[j - 1], s[j], descending)
    ensures Sorted(s[..i + 1], descending)
  {
    forall p, q | 0 <= p < q <= i ensures InOrder(s[p], s[q], descending) {
      if q == j && p < j - 1 {
        assert InOrder(s[p], s[j - 1], descending);
      }
    }
  }
}