/** Sorting and paging of query results (`manager/src/QueryManager.cpp`). */
module Paging {
  import opened Seqs

  /** Newest first; the order of records with equal timestamps is left open, as `std::sort` does. */
  ghost predicate Descending<T>(stamp: T -> int, s: seq<T>) {
    forall i, j | 0 <= i < j < |s| :: stamp(s[i]) >= stamp(s[j])
  }

  /** Any sort with this contract will do; insertion keeps it short. */
  method SortDescending<T>(stamp: T -> int, s: seq<T>) returns (sorted: seq<T>)
    ensures multiset(sorted) == multiset(s) && Descending(stamp, sorted)
  {
    sorted := [];
    var i := 0;
    while i < |s|
      invariant 0 <= i <= |s|
      invariant multiset(sorted) == multiset(s[..i]) && Descending(stamp, sorted)
    {
      var k := Slot(stamp, sorted, s[i]);
      Insert(stamp, sorted, k, s[i]);
      sorted := sorted[..k] + [s[i]] + sorted[k..];
      assert s[..i + 1] == s[..i] + [s[i]];
      i := i + 1;
    }
    assert s[..|s|] == s;
  }

  method Slot<T>(stamp: T -> int, s: seq<T>, x: T) returns (k: nat)
    ensures k <= |s| && (forall j | 0 <= j < k :: stamp(s[j]) >= stamp(x))
    ensures k < |s| ==> stamp(s[k]) < stamp(x)
  {
    k := 0;
    while k < |s| && stamp(s[k]) >= stamp(x)
      invariant 0 <= k <= |s|
      invariant forall j | 0 <= j < k :: stamp(s[j]) >= stamp(x)
    {
      k := k + 1;
    }
  }

  lemma Insert<T>(stamp: T -> int, s: seq<T>, k: nat, x: T)
    requires Descending(stamp, s) && k <= |s|
    requires forall j | 0 <= j < k :: stamp(s[j]) >= stamp(x)
    requires k < |s| ==> stamp(s[k]) < stamp(x)
    ensures var t := s[..k] + [x] + s[k..];
            Descending(stamp, t) && multiset(t) == multiset(s) + multiset{x}
  {
    InsertMultiset(s, k, x);
    InsertOrder(stamp, s, k, x);
  }

  lemma InsertMultiset<T>(s: seq<T>, k: nat, x: T)
    requires k <= |s|
    ensures multiset(s[..k] + [x] + s[k..]) == multiset(s) + multiset{x}
  {
    assert s == s[..k] + s[k..];
  }

  lemma InsertOrder<T>(stamp: T -> int, s: seq<T>, k: nat, x: T)
    requires Descending(stamp, s) && k <= |s|
    requires forall j | 0 <= j < k :: stamp(s[j]) >= stamp(x)
    requires k < |s| ==> stamp(s[k]) < stamp(x)
    ensures Descending(stamp, s[..k] + [x] + s[k..])
  {
    var t := s[..k] + [x] + s[k..];
    forall i, j | 0 <= i < j < |t| ensures stamp(t[i]) >= stamp(t[j]) {
      assert t[i] == if i < k then s[i] else if i == k then x else s[i - 1];
      assert t[j] == if j < k then s[j] else if j == k then x else s[j - 1];
      if i == k && j > k + 1 { assert stamp(s[k]) >= stamp(s[j - 1]); }
    }
  }

  /** The slice of one page; a page past the end is empty. */
  function Page<T>(s: seq<T>, page: int, size: int): seq<T>
    requires page >= 1 && size >= 1
  {
    var offset := (page - 1) * size;
    if offset < 0 || offset >= |s| then []
    else s[offset..if offset + size < |s| then offset + size else |s|]
  }

  /** The first `n` pages, one after the other. */
  function FirstPages<T>(s: seq<T>, size: int, n: nat): seq<T>
    requires size >= 1
  {
    if n == 0 then [] else FirstPages(s, size, n - 1) + Page(s, n, size)
  }

  /** The first `n` pages are the first `n * size` records: nothing lost, nothing repeated. */
  lemma {:induction false} FirstPagesArePrefix<T>(s: seq<T>, size: int, n: nat)
    requires size >= 1
    ensures n * size >= 0
    ensures FirstPages(s, size, n) == s[..if n * size < |s| then n * size else |s|]
  {
    if n > 0 {
      FirstPagesArePrefix(s, size, n - 1);
      var before := (n - 1) * size;
      assert n * size == before + size;
      if before < |s| {
        var end := if before + size < |s| then before + size else |s|;
        assert s[..before] + s[before..end] == s[..end];
      }
    }
  }

  /** Pages 1 to ceil(n / size) together are the whole result, and all later pages are empty. */
  lemma PagesCoverResult<T>(s: seq<T>, size: int, pages: nat)
    requires size >= 1 && pages == (|s| + size - 1) / size
    ensures FirstPages(s, size, pages) == s
    ensures forall page | page > pages :: Page(s, page, size) == []
  {
    FirstPagesArePrefix(s, size, pages);
    CeilCovers(|s|, size, pages);
    assert s[..|s|] == s;
    forall page | page > pages ensures Page(s, page, size) == [] {
      MulMonotone(pages, page - 1, size);
    }
  }

  lemma CeilCovers(n: nat, size: int, pages: nat)
    requires size >= 1 && pages == (n + size - 1) / size
    ensures pages * size >= n
  {
    assert (n + size - 1) == size * pages + (n + size - 1) % size;
  }

  lemma MulMonotone(a: nat, b: nat, c: int)
    requires a <= b && c >= 0
    ensures a * c <= b * c
  {
  }

  const MAX_INT := 0x7fff_ffff

  /** A C++ `int`: leaving its range is an overflow. */
  newtype int32 = x: int | -0x8000_0000 <= x <= 0x7fff_ffff

  /** No intermediate of the page arithmetic leaves the range of `int`. */
  predicate NoOverflow(n: nat, page: int, size: int) {
    (page - 1) * size <= MAX_INT && ((page - 1) * size < n ==> (page - 1) * size + size <= MAX_INT)
  }

  /** The page arithmetic on C++ ints gives the page whenever no intermediate overflows. */
  method PageInt32<T>(s: seq<T>, page: int32, size: int32) returns (records: seq<T>)
    requires page >= 1 && size >= 1 && |s| <= MAX_INT
    requires NoOverflow(|s|, page as int, size as int)
    ensures records == Page(s, page as int, size as int)
  {
    OffsetFits(page as int, size as int);
    var offset: int32 := (page - 1) * size;
    if offset as int >= |s| { return []; }
    var end: int32 := offset + size;
    var stop := if end as int < |s| then end as int else |s|;
    return s[offset as int..stop];
  }

  lemma OffsetFits(page: int, size: int)
    requires page >= 1 && size >= 1
    ensures 0 <= (page - 1) * size && (page - 1) * size + size == page * size
  {
  }

  /** For a result of `n` records the arithmetic is safe exactly when the product of page and size is
      in range, or the page starts past the end at an offset still in range. */
  lemma NoOverflowIff(n: nat, page: int, size: int)
    requires page >= 1 && size >= 1
    ensures NoOverflow(n, page, size) <==>
            page * size <= MAX_INT || n <= (page - 1) * size <= MAX_INT
  {
    OffsetFits(page, size);
  }
}
