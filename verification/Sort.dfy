/** qsort of the C library: quicksort in place on a byte array of equally sized elements. */
module Sort {
  import opened Words
  import opened Arithmetic

  type Item = seq<Byte>
  type Comparator = (Item, Item) -> int

  /** Element `k` of the array. */
  function ItemAt(bytes: seq<Byte>, size: nat, k: nat): Item {
    if k * size + size <= |bytes| then bytes[k * size..k * size + size] else []
  }

  /** The array as a list of `n` elements. */
  function Items(bytes: seq<Byte>, size: nat, n: nat): (r: seq<Item>)
    ensures |r| == n
  {
    seq(n, k requires 0 <= k < n => ItemAt(bytes, size, k))
  }

  lemma SlotsApart(i: nat, j: nat, size: nat)
    requires i < j
    ensures i * size + size <= j * size
  {
    MulLe(i + 1, j, size);
    assert (i + 1) * size == i * size + size;
  }

  // ---- Lists of elements ----------------------------------------------------------------------

  function Swapped<T>(a: seq<T>, i: nat, j: nat): (b: seq<T>)
    requires i < |a| && j < |a|
    ensures |b| == |a|
  {
    a[i := a[j]][j := a[i]]
  }

  lemma SwappedAt<T>(a: seq<T>, i: nat, j: nat)
    requires i < |a| && j < |a|
    ensures forall k :: 0 <= k < |a| ==> Swapped(a, i, j)[k] == a[if k == i then j else if k == j then i else k]
  {
  }

  /** `b` is `a` with the elements from `lo` to `hi` in some other order. */
  ghost predicate Permuted<T>(a: seq<T>, b: seq<T>, lo: nat, hi: nat) {
    && lo <= hi <= |a| == |b|
    && multiset(a[lo..hi]) == multiset(b[lo..hi])
    && a[..lo] == b[..lo] && a[hi..] == b[hi..]
  }

  lemma SwapPermutes<T>(a: seq<T>, i: nat, j: nat, lo: nat, hi: nat)
    requires lo <= i < hi <= |a| && lo <= j < hi
    ensures Permuted(a, Swapped(a, i, j), lo, hi)
  {
    var s, t := a[lo..hi], Swapped(a, i, j)[lo..hi];
    assert t == s[i - lo := s[j - lo]][j - lo := s[i - lo]];
  }

  lemma PermutedTwice<T>(a: seq<T>, b: seq<T>, c: seq<T>, lo: nat, hi: nat)
    requires Permuted(a, b, lo, hi) && Permuted(b, c, lo, hi)
    ensures Permuted(a, c, lo, hi)
  {
  }

  lemma ThreeParts<T>(a: seq<T>, lo: nat, l: nat, h: nat, hi: nat)
    requires lo <= l <= h <= hi <= |a|
    ensures a[lo..hi] == a[lo..l] + a[l..h] + a[h..hi]
  {
  }

  /** Reordering a part of a stretch reorders the stretch. */
  lemma PermutedWider<T>(a: seq<T>, b: seq<T>, l: nat, h: nat, lo: nat, hi: nat)
    requires Permuted(a, b, l, h) && lo <= l && h <= hi <= |a|
    ensures Permuted(a, b, lo, hi)
  {
    ThreeParts(a, lo, l, h, hi);
    ThreeParts(b, lo, l, h, hi);
    assert a[lo..l] == a[..l][lo..] && b[lo..l] == b[..l][lo..];
    assert a[h..hi] == a[h..][..hi - h] && b[h..hi] == b[h..][..hi - h];
    assert a[..lo] == a[..l][..lo] && b[..lo] == b[..l][..lo];
    assert a[hi..] == a[h..][hi - h..] && b[hi..] == b[h..][hi - h..];
  }

  /** Whatever holds of every element of a stretch still holds after reordering it. */
  lemma PermutedKeeps<T>(a: seq<T>, b: seq<T>, lo: nat, hi: nat, good: T -> bool)
    requires Permuted(a, b, lo, hi) && forall k :: lo <= k < hi ==> good(a[k])
    ensures forall k :: lo <= k < hi ==> good(b[k])
  {
    forall k | lo <= k < hi
      ensures good(b[k])
    {
      assert b[k] == b[lo..hi][k - lo];
      assert b[k] in multiset(b[lo..hi]);
      assert b[k] in a[lo..hi];
    }
  }

  lemma PermutedOutside<T>(a: seq<T>, b: seq<T>, lo: nat, hi: nat)
    requires Permuted(a, b, lo, hi)
    ensures forall k :: 0 <= k < |a| && (k < lo || k >= hi) ==> a[k] == b[k]
  {
    assert forall k :: 0 <= k < lo ==> a[k] == a[..lo][k] && b[k] == b[..lo][k];
    assert forall k :: hi <= k < |a| ==> a[k] == a[hi..][k - hi] && b[k] == b[hi..][k - hi];
  }

  // ---- Order ----------------------------------------------------------------------------------

  /** The comparator orders the elements of this size totally, ties allowed. */
  ghost predicate Preorder(compar: Comparator, size: nat) {
    && (forall x: Item, y: Item :: |x| == size && |y| == size ==> (compar(x, y) > 0 <==> compar(y, x) < 0))
    && (forall x: Item, y: Item, z: Item {:trigger compar(x, y), compar(y, z)} ::
          |x| == size && |y| == size && |z| == size && compar(x, y) <= 0 && compar(y, z) <= 0 ==> compar(x, z) <= 0)
  }

  ghost predicate Sorted(a: seq<Item>, lo: nat, hi: nat, compar: Comparator)
    requires hi <= |a|
  {
    forall i, j :: lo <= i < j < hi ==> compar(a[i], a[j]) <= 0
  }

  /** Everything from `lo` to `hi` is on the pivot's proper side of place `i`, where the pivot is. */
  ghost predicate Parted<T>(a: seq<T>, lo: nat, i: nat, hi: nat, pivot: T, compar: (T, T) -> int)
    requires lo <= i < hi <= |a|
  {
    && a[i] == pivot
    && (forall k :: lo <= k < i ==> compar(a[k], pivot) <= 0)
    && (forall k :: i < k < hi ==> compar(a[k], pivot) >= 0)
  }

  lemma JoinSorted(a: seq<Item>, lo: nat, i: nat, hi: nat, pivot: Item, compar: Comparator, size: nat)
    requires lo <= i < hi <= |a| && forall k :: lo <= k < hi ==> |a[k]| == size
    requires Preorder(compar, size) && Parted(a, lo, i, hi, pivot, compar)
    requires Sorted(a, lo, i, compar) && Sorted(a, i + 1, hi, compar)
    ensures Sorted(a, lo, hi, compar)
  {
    forall x, y | lo <= x < y < hi
      ensures compar(a[x], a[y]) <= 0
    {
      if x < i && i < y {
        assert compar(a[x], pivot) <= 0 && compar(pivot, a[y]) <= 0;
      }
    }
  }

  // ---- The source ------------------------------------------------------------------------------

  /** The element a pointer `arr + k * size` points to. */
  function Pointed(arr: array<Byte>, size: nat, n: nat, k: nat): (x: Item)
    requires k < n && arr.Length == n * size
    reads arr
    ensures x == Items(arr[..], size, n)[k] && |x| == size
  {
    SlotsApart(k, n, size);
    arr[k * size..k * size + size]
  }

  /** The bytes after `count` steps of the exchange. */
  function SwapBytes(bytes: seq<Byte>, p: nat, q: nat, count: nat): (r: seq<Byte>)
    requires p + count <= |bytes| && q + count <= |bytes|
    ensures |r| == |bytes|
  {
    if count == 0 then bytes else Swapped(SwapBytes(bytes, p, q, count - 1), p + count - 1, q + count - 1)
  }

  lemma {:induction false} SwapBytesAt(bytes: seq<Byte>, p: nat, q: nat, count: nat, x: nat)
    requires p + count <= |bytes| && q + count <= |bytes| && x < |bytes|
    requires p == q || p + count <= q || q + count <= p
    ensures SwapBytes(bytes, p, q, count)[x]
         == if p <= x < p + count then bytes[q + (x - p)]
            else if q <= x < q + count then bytes[p + (x - q)] else bytes[x]
  {
    if count > 0 {
      SwapBytesAt(bytes, p, q, count - 1, x);
      SwapBytesAt(bytes, p, q, count - 1, p + count - 1);
      SwapBytesAt(bytes, p, q, count - 1, q + count - 1);
    }
  }

  lemma StretchAfterSwap(bytes: seq<Byte>, p: nat, q: nat, size: nat, o: nat)
    requires p + size <= |bytes| && q + size <= |bytes| && o + size <= |bytes|
    requires p == q || p + size <= q || q + size <= p
    requires o == p || o + size <= p || p + size <= o
    requires o == q || o + size <= q || q + size <= o
    ensures var from := if o == p then q else if o == q then p else o;
            SwapBytes(bytes, p, q, size)[o..o + size] == bytes[from..from + size]
  {
    hide SwapBytes;
    var from := if o == p then q else if o == q then p else o;
    var x, y := SwapBytes(bytes, p, q, size)[o..o + size], bytes[from..from + size];
    forall b | 0 <= b < size
      ensures x[b] == y[b]
    {
      SwapBytesAt(bytes, p, q, size, o + b);
    }
  }

  /** Element `k` starts at byte `o`. */
  ghost predicate StartsAt(k: nat, size: nat, o: nat) {
    o == k * size
  }

  /** Elements at different places do not overlap. */
  lemma Apart(i: nat, j: nat, size: nat, p: nat, q: nat)
    requires StartsAt(i, size, p) && StartsAt(j, size, q)
    ensures p == q || p + size <= q || q + size <= p
    ensures i == j ==> p == q
    ensures size > 0 && p == q ==> i == j
  {
    if i < j {
      SlotsApart(i, j, size);
    } else if j < i {
      SlotsApart(j, i, size);
    }
  }

  lemma ItemIs(bytes: seq<Byte>, size: nat, k: nat, o: nat)
    requires StartsAt(k, size, o) && o + size <= |bytes|
    ensures ItemAt(bytes, size, k) == bytes[o..o + size]
  {
  }

  lemma SlotAfterSwap(bytes: seq<Byte>, i: nat, j: nat, k: nat, size: nat, p: nat, q: nat, o: nat)
    requires StartsAt(i, size, p) && StartsAt(j, size, q) && StartsAt(k, size, o)
    requires p + size <= |bytes| && q + size <= |bytes| && o + size <= |bytes|
    ensures ItemAt(SwapBytes(bytes, p, q, size), size, k)
         == ItemAt(bytes, size, if k == i then j else if k == j then i else k)
  {
    hide SwapBytes, ItemAt, StartsAt;
    Apart(i, j, size, p, q);
    Apart(k, i, size, o, p);
    Apart(k, j, size, o, q);
    StretchAfterSwap(bytes, p, q, size, o);
    ItemIs(SwapBytes(bytes, p, q, size), size, k, o);
    ItemIs(bytes, size, i, p);
    ItemIs(bytes, size, j, q);
    ItemIs(bytes, size, k, o);
  }

  /** Where element `k` of `n` starts, and that it lies within their bytes. */
  lemma Place(k: nat, n: nat, size: nat, total: nat) returns (o: nat)
    requires k < n && total == n * size
    ensures StartsAt(k, size, o) && o + size <= total
  {
    SlotsApart(k, n, size);
    o := k * size;
  }

  lemma ItemsAt(bytes: seq<Byte>, size: nat, n: nat)
    ensures forall k :: 0 <= k < n ==> Items(bytes, size, n)[k] == ItemAt(bytes, size, k)
  {
    hide ItemAt;
  }

  lemma SwapIsSwapped(bytes: seq<Byte>, n: nat, i: nat, j: nat, size: nat, p: nat, q: nat)
    requires i < n && j < n && |bytes| == n * size && StartsAt(i, size, p) && StartsAt(j, size, q)
    requires p + size <= |bytes| && q + size <= |bytes|
    ensures Items(SwapBytes(bytes, p, q, size), size, n) == Swapped(Items(bytes, size, n), i, j)
  {
    hide ItemAt, SwapBytes, Items, Swapped, StartsAt;
    var total := |bytes|;
    var x, y := Items(SwapBytes(bytes, p, q, size), size, n), Swapped(Items(bytes, size, n), i, j);
    ItemsAt(SwapBytes(bytes, p, q, size), size, n);
    ItemsAt(bytes, size, n);
    SwappedAt(Items(bytes, size, n), i, j);
    forall k | 0 <= k < n
      ensures x[k] == y[k]
    {
      var o := Place(k, n, size, total);
      SlotAfterSwap(bytes, i, j, k, size, p, q, o);
    }
  }

  /** The loop of qsort_swap over the bytes at two places. */
  method ExchangeBytes(arr: array<Byte>, a: nat, b: nat, size: nat)
    requires a + size <= arr.Length && b + size <= arr.Length
    modifies arr
    ensures arr[..] == SwapBytes(old(arr[..]), a, b, size)
  {
    var i := 0;
    while i < size
      invariant i <= size
      invariant arr[..] == SwapBytes(old(arr[..]), a, b, i)
    {
      var temp := arr[a + i];
      arr[a + i] := arr[b + i];
      arr[b + i] := temp;
      i := i + 1;
    }
  }

  /** qsort_swap: exchanging the bytes of two elements exchanges the elements. */
  method QsortSwap(arr: array<Byte>, n: nat, p: nat, q: nat, size: nat)
    requires p < n && q < n && arr.Length == n * size
    modifies arr
    ensures Items(arr[..], size, n) == Swapped(old(Items(arr[..], size, n)), p, q)
  {
    hide SwapBytes, Items, Swapped;
    SlotsApart(p, n, size);
    SlotsApart(q, n, size);
    SwapIsSwapped(arr[..], n, p, q, size, p * size, q * size);
    ExchangeBytes(arr, p * size, q * size, size);
  }

  /** Put the elements at two places in order, as far as the comparator is concerned. */
  method OrderPair(arr: array<Byte>, n: nat, p: nat, q: nat, size: nat, compar: Comparator,
                   ghost before: seq<Item>, ghost lo: nat, ghost hi: nat)
    requires lo <= p < hi <= n && lo <= q < hi && arr.Length == n * size
    requires Permuted(before, Items(arr[..], size, n), lo, hi)
    modifies arr
    ensures Permuted(before, Items(arr[..], size, n), lo, hi)
  {
    hide Items, Permuted, Swapped;
    if compar(Pointed(arr, size, n, p), Pointed(arr, size, n, q)) > 0 {
      ExchangePair(arr, n, p, q, size, before, lo, hi);
    }
  }

  method ExchangePair(arr: array<Byte>, n: nat, p: nat, q: nat, size: nat,
                      ghost before: seq<Item>, ghost lo: nat, ghost hi: nat)
    requires lo <= p < hi <= n && lo <= q < hi && arr.Length == n * size
    requires Permuted(before, Items(arr[..], size, n), lo, hi)
    modifies arr
    ensures Permuted(before, Items(arr[..], size, n), lo, hi)
  {
    hide Items, Permuted, Swapped;
    ghost var now := Items(arr[..], size, n);
    QsortSwap(arr, n, p, q, size);
    SwapPermutes(now, p, q, lo, hi);
    PermutedTwice(before, now, Swapped(now, p, q), lo, hi);
  }

  /** The median of three is found and put at the right end. */
  method MedianToRight(arr: array<Byte>, n: nat, left: nat, right: nat, size: nat, compar: Comparator)
    requires left < right < n && arr.Length == n * size
    modifies arr
    ensures Permuted(old(Items(arr[..], size, n)), Items(arr[..], size, n), left, right + 1)
  {
    hide Items, Permuted;
    var mid := left + (right - left) / 2;
    ghost var before := Items(arr[..], size, n);
    SamePermuted(before, left, right + 1);
    OrderPair(arr, n, left, mid, size, compar, before, left, right + 1);
    OrderPair(arr, n, left, right, size, compar, before, left, right + 1);
    OrderPair(arr, n, mid, right, size, compar, before, left, right + 1);
    ExchangePair(arr, n, mid, right, size, before, left, right + 1);
  }

  /** During the scan: left of `i` nothing is above the pivot, right of `j` nothing is below it. */
  ghost predicate Scanned<T>(a: seq<T>, left: nat, i: nat, j: int, right: nat, pivot: T, compar: (T, T) -> int) {
    && left <= i <= right < |a| && left <= j < right && a[right] == pivot
    && (forall k :: left <= k < i ==> compar(a[k], pivot) <= 0)
    && (forall k :: j < k < right ==> compar(a[k], pivot) >= 0)
  }

  lemma ScanSwap<T>(before: seq<T>, a: seq<T>, left: nat, i: nat, j: nat, right: nat, pivot: T, compar: (T, T) -> int)
    requires Permuted(before, a, left, right + 1) && Scanned(a, left, i, j, right, pivot, compar) && i < j
    requires compar(a[i], pivot) >= 0 && compar(a[j], pivot) <= 0
    ensures Permuted(before, Swapped(a, i, j), left, right + 1)
    ensures Scanned(Swapped(a, i, j), left, i + 1, j - 1, right, pivot, compar)
  {
    hide Permuted, Swapped;
    SwappedAt(a, i, j);
    SwapPermutes(a, i, j, left, right + 1);
    PermutedTwice(before, a, Swapped(a, i, j), left, right + 1);
  }

  lemma ScanEnd<T>(before: seq<T>, a: seq<T>, left: nat, i: nat, j: nat, right: nat, pivot: T, compar: (T, T) -> int)
    requires Permuted(before, a, left, right + 1) && Scanned(a, left, i, j, right, pivot, compar) && i >= j
    requires i < right ==> compar(a[i], pivot) >= 0
    ensures Permuted(before, Swapped(a, i, right), left, right + 1)
    ensures Parted(Swapped(a, i, right), left, i, right + 1, pivot, compar)
  {
    hide Permuted, Swapped;
    SwappedAt(a, i, right);
    SwapPermutes(a, i, right, left, right + 1);
    PermutedTwice(before, a, Swapped(a, i, right), left, right + 1);
  }

  /** The two-sided scan, and the pivot put between the two sides. */
  method Partition(arr: array<Byte>, n: nat, left: nat, right: nat, size: nat, compar: Comparator) returns (i: nat)
    requires left < right < n && arr.Length == n * size
    modifies arr
    ensures left <= i <= right
    ensures Permuted(old(Items(arr[..], size, n)), Items(arr[..], size, n), left, right + 1)
    ensures Parted(Items(arr[..], size, n), left, i, right + 1, old(Items(arr[..], size, n))[right], compar)
  {
    hide Items, Permuted, Swapped, Parted;
    ghost var before := Items(arr[..], size, n);
    ghost var a := before;
    ghost var pivot := a[right];
    SamePermuted(a, left, right + 1);
    i := left;
    var j := right - 1;
    while true
      invariant a == Items(arr[..], size, n)
      invariant Permuted(before, a, left, right + 1) && Scanned(a, left, i, j, right, pivot, compar)
      decreases right - i
    {
      while i < right && compar(Pointed(arr, size, n, i), Pointed(arr, size, n, right)) < 0
        invariant Scanned(a, left, i, j, right, pivot, compar)
      {
        i := i + 1;
      }
      while j > left && compar(Pointed(arr, size, n, j), Pointed(arr, size, n, right)) > 0
        invariant Scanned(a, left, i, j, right, pivot, compar)
      {
        j := j - 1;
      }
      if i >= j {
        break;
      }
      QsortSwap(arr, n, i, j, size);
      ScanSwap(before, a, left, i, j, right, pivot, compar);
      a := Swapped(a, i, j);
      i := i + 1;
      j := j - 1;
    }
    QsortSwap(arr, n, i, right, size);
    ScanEnd(before, a, left, i, j, right, pivot, compar);
  }

  lemma SamePermuted<T>(a: seq<T>, lo: nat, hi: nat)
    requires lo <= hi <= |a|
    ensures Permuted(a, a, lo, hi)
  {
  }

  /** Sorting the two sides of a parted stretch, each in place, sorts the stretch. */
  lemma SidesSorted(a: seq<Item>, b: seq<Item>, c: seq<Item>, lo: nat, i: nat, hi: nat, pivot: Item,
                    compar: Comparator, size: nat)
    requires lo <= i < hi <= |a| && forall k :: 0 <= k < |c| ==> |c[k]| == size
    requires Parted(a, lo, i, hi, pivot, compar) && Permuted(a, b, lo, i) && Permuted(b, c, i + 1, hi)
    requires Preorder(compar, size) ==> Sorted(b, lo, i, compar) && Sorted(c, i + 1, hi, compar)
    ensures Permuted(a, c, lo, hi)
    ensures Preorder(compar, size) ==> Sorted(c, lo, hi, compar)
  {
    hide Preorder;
    PermutedWider(a, b, lo, i, lo, hi);
    PermutedWider(b, c, i + 1, hi, lo, hi);
    PermutedTwice(a, b, c, lo, hi);
    PermutedOutside(a, b, lo, i);
    PermutedOutside(b, c, i + 1, hi);
    PermutedKeeps(a, b, lo, i, x => compar(x, pivot) <= 0);
    PermutedKeeps(b, c, i + 1, hi, x => compar(x, pivot) >= 0);
    if Preorder(compar, size) {
      assert Sorted(c, lo, i, compar);
      JoinSorted(c, lo, i, hi, pivot, compar, size);
    }
  }

  /**
   * qsort_impl: the elements from `left` to `right` are reordered and nothing else is touched, whatever the
   * comparator says; if it is a total preorder they end up sorted.
   */
  method QsortImpl(arr: array<Byte>, n: nat, left: nat, right: nat, size: nat, compar: Comparator)
    requires left <= right < n && arr.Length == n * size
    modifies arr
    ensures Permuted(old(Items(arr[..], size, n)), Items(arr[..], size, n), left, right + 1)
    ensures Preorder(compar, size) ==> Sorted(Items(arr[..], size, n), left, right + 1, compar)
    decreases right - left
  {
    hide Items, Permuted, Preorder, Parted;
    ghost var a := Items(arr[..], size, n);
    if left >= right {
      SamePermuted(a, left, right + 1);
      return;
    }
    MedianToRight(arr, n, left, right, size, compar);
    ghost var b := Items(arr[..], size, n);
    var i := Partition(arr, n, left, right, size, compar);
    ghost var c := Items(arr[..], size, n);
    PermutedTwice(a, b, c, left, right + 1);
    SamePermuted(c, left, i);
    if i > left {
      QsortImpl(arr, n, left, i - 1, size, compar);
    }
    ghost var d := Items(arr[..], size, n);
    SamePermuted(d, i + 1, right + 1);
    if i < right {
      QsortImpl(arr, n, i + 1, right, size, compar);
    }
    ghost var e := Items(arr[..], size, n);
    AllSized(arr[..], size, n);
    SidesSorted(c, d, e, left, i, right + 1, b[right], compar, size);
    PermutedTwice(a, c, e, left, right + 1);
  }

  lemma AllSized(bytes: seq<Byte>, size: nat, n: nat)
    requires |bytes| == n * size
    ensures forall k :: 0 <= k < n ==> |Items(bytes, size, n)[k]| == size
  {
    forall k | 0 <= k < n
      ensures |Items(bytes, size, n)[k]| == size
    {
      SlotsApart(k, n, size);
    }
  }

  /** qsort: the elements in some other order, and in order if the comparator is a total preorder. */
  method Qsort(arr: array<Byte>, nmemb: nat, size: nat, compar: Comparator)
    requires arr.Length == nmemb * size
    modifies arr
    ensures multiset(Items(arr[..], size, nmemb)) == multiset(old(Items(arr[..], size, nmemb)))
    ensures Preorder(compar, size) ==> Sorted(Items(arr[..], size, nmemb), 0, nmemb, compar)
  {
    hide Items, Preorder;
    if nmemb <= 1 {
      return;
    }
    ghost var a := Items(arr[..], size, nmemb);
    QsortImpl(arr, nmemb, 0, nmemb - 1, size, compar);
    ghost var b := Items(arr[..], size, nmemb);
    assert a[0..nmemb] == a && b[0..nmemb] == b;
  }
}
