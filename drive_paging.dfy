/**
 * The in-memory paging of Drive listings (`get3dImages`, `get360Images`,
 * `getListVideoMp4`): the page is `subList(offset, min(offset + size, total))`
 * of the whole listing. A Spring `Pageable` always has a non-negative
 * offset and a positive page size.
 */
module DrivePaging {
  import opened Wrappers
  import opened Strings

  function Min(a: int, b: int): int { if a <= b then a else b }

  /** The slice as written: `subList` throws when the offset lies past the end of the listing. */
  function PageSliceAsWritten<T>(all: seq<T>, offset: int, size: int): (r: Result<seq<T>, string>)
    requires 0 <= offset && 1 <= size
    ensures r.Ok? <==> offset <= |all|
    ensures r.Ok? ==> |r.value| == Min(size, |all| - offset)
    ensures r.Ok? ==> forall k :: 0 <= k < |r.value| ==> r.value[k] == all[offset + k]
    ensures r.Err? ==> r.error == "IllegalArgumentException: fromIndex(" + IntToString(offset) + ") > toIndex(" + IntToString(|all|) + ")"
  {
    var start := offset;
    var end := Min(start + size, |all|);
    if start > end then Err("IllegalArgumentException: fromIndex(" + IntToString(start) + ") > toIndex(" + IntToString(end) + ")") else Ok(all[start..end])
  }

  /** The page as intended: a page past the end of the listing is empty. */
  function PageSlice<T>(all: seq<T>, offset: int, size: int): (r: seq<T>)
    requires 0 <= offset && 1 <= size
    ensures |r| <= size
    ensures offset >= |all| ==> r == []
    ensures offset < |all| ==> |r| == Min(size, |all| - offset)
    ensures forall k :: 0 <= k < |r| ==> r[k] == all[offset + k]
  {
    var start := Min(offset, |all|);
    var end := Min(start + size, |all|);
    all[start..end]
  }

  /** Both slices agree on every page that exists; past the end only the intended one answers. */
  lemma PageSlicesAgree<T>(all: seq<T>, offset: int, size: int)
    requires 0 <= offset && 1 <= size
    ensures offset <= |all| ==> PageSliceAsWritten(all, offset, size) == Ok(PageSlice(all, offset, size))
    ensures offset > |all| ==> PageSliceAsWritten(all, offset, size).Err? && PageSlice(all, offset, size) == []
  {
  }

  /** A concrete case: asking for the second page of five when three images exist fails instead of returning an empty page. */
  lemma SecondPageOfThreeFails()
    ensures PageSliceAsWritten([1, 2, 3], 5, 5).Err?
    ensures PageSlice([1, 2, 3], 5, 5) == []
  {
  }

  /** Pages partition the listing: element `i` is element `i % size` of page `i / size`. */
  lemma PagesPartition<T>(all: seq<T>, size: int, i: int)
    requires 1 <= size && 0 <= i < |all|
    ensures 0 <= (i / size) * size
    ensures i % size < |PageSlice(all, (i / size) * size, size)|
    ensures PageSlice(all, (i / size) * size, size)[i % size] == all[i]
  {
    var offset := (i / size) * size;
    assert offset + i % size == i;
    assert 0 <= offset;
  }

  /** Two adjacent pages together make up one page of their combined size. */
  lemma AdjacentPagesJoin<T>(all: seq<T>, offset: int, size1: int, size2: int)
    requires 0 <= offset && 1 <= size1 && 1 <= size2
    ensures PageSlice(all, offset, size1) + PageSlice(all, offset + size1, size2) == PageSlice(all, offset, size1 + size2)
  {
    var a := PageSlice(all, offset, size1);
    var b := PageSlice(all, offset + size1, size2);
    var c := PageSlice(all, offset, size1 + size2);
    if offset + size1 < |all| {
      assert |a| == size1;
      assert |a + b| == |c|;
      forall k | 0 <= k < |c|
        ensures (a + b)[k] == c[k]
      {
        if k >= size1 {
          assert b[k - size1] == all[offset + k];
        }
      }
    }
  }
}
