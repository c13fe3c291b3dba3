/**
 * `fetch_data`: read the tabular API page by page, 1000 rows at a time,
 * until a page comes back short. The HTTP request, `raise_for_status` and the
 * JSON decoding are folded into a page source: a function from the `offset`
 * query parameter to the page's rows, or to a failure.
 */
module Fetch {

  /** The `limit` query parameter, and the step of `offset`. */
  const PageSize: nat := 1000

  /**
   * What one request yields: the rows under the body's `list` key (empty when
   * the key is absent), or a failure (an HTTP error status, a transport error,
   * a body that is not a JSON object).
   */
  datatype Response<T> = Page(rows: seq<T>) | Failed

  /** A response after which the loop requests nothing more. */
  predicate Stops<T>(r: Response<T>)
  {
    r.Failed? || |r.rows| < PageSize
  }

  /** The rows of a response, none for a failure. */
  function RowsOf<T>(r: Response<T>): seq<T>
  {
    if r.Page? then r.rows else []
  }

  /** The rows of the first `n` pages, concatenated in request order. */
  function Gathered<T>(source: nat -> Response<T>, n: nat): seq<T>
  {
    if n == 0 then [] else Gathered(source, n - 1) + RowsOf(source((n - 1) * PageSize))
  }

  /**
   * After `n` pages of at least `PageSize` rows, at least `n * PageSize` rows
   * have been gathered; exactly that many when the source honours the limit.
   */
  lemma {:induction false} GatheredLength<T>(source: nat -> Response<T>, n: nat)
    requires forall i :: 0 <= i < n ==> source(i * PageSize).Page? && |source(i * PageSize).rows| >= PageSize
    ensures |Gathered(source, n)| >= n * PageSize
    ensures (forall i :: 0 <= i < n ==> |source(i * PageSize).rows| == PageSize) ==> |Gathered(source, n)| == n * PageSize
  {
    if n > 0 {
      GatheredLength(source, n - 1);
    }
  }

  /**
   * `fetch_data(url, HEADERS)`. `last` is the index of some page at which the
   * source stops (a short page or a failure); without one the source loop
   * never ends. `offsets` records the `offset` of each request in order.
   * The loop asks for offsets 0, 1000, 2000, ... and stops at the first short
   * page or failure; every earlier page was full. On a failure the result is
   * empty, otherwise it is all pages concatenated, the short one included.
   */
  method FetchData<T>(source: nat -> Response<T>, ghost last: nat) returns (rows: seq<T>, offsets: seq<nat>)
    requires Stops(source(last * PageSize))
    ensures 1 <= |offsets| <= last + 1
    ensures forall i :: 0 <= i < |offsets| ==> offsets[i] == i * PageSize
    ensures forall i :: 0 <= i < |offsets| - 1 ==> source(offsets[i]).Page? && |source(offsets[i]).rows| >= PageSize
    ensures Stops(source(offsets[|offsets| - 1]))
    ensures source(offsets[|offsets| - 1]).Failed? ==> rows == []
    ensures source(offsets[|offsets| - 1]).Page? ==>
              && rows == Gathered(source, |offsets|)
              && |rows| >= (|offsets| - 1) * PageSize + |source(offsets[|offsets| - 1]).rows|
    ensures source(offsets[|offsets| - 1]).Page? && (forall i :: 0 <= i < |offsets| ==> |RowsOf(source(offsets[i]))| <= PageSize) ==>
              |rows| == (|offsets| - 1) * PageSize + |source(offsets[|offsets| - 1]).rows|
  {
    var offset: nat := 0;
    var total: seq<T> := [];
    offsets := [];
    while true
      invariant |offsets| <= last
      invariant offset == |offsets| * PageSize
      invariant forall i :: 0 <= i < |offsets| ==> offsets[i] == i * PageSize
      invariant forall i :: 0 <= i < |offsets| ==> source(i * PageSize).Page? && |source(i * PageSize).rows| >= PageSize
      invariant total == Gathered(source, |offsets|)
      decreases last - |offsets|
    {
      offsets := offsets + [offset];
      var response := source(offset);
      if response.Failed? {
        rows := [];
        return;
      }
      var data := response.rows;
      total := total + data;
      offset := offset + PageSize;
      if |data| < PageSize {
        var n := |offsets| - 1;
        GatheredLength(source, n);
        if forall i :: 0 <= i < |offsets| ==> |RowsOf(source(offsets[i]))| <= PageSize {
          forall i | 0 <= i < n
            ensures |source(i * PageSize).rows| == PageSize
          {
            assert offsets[i] == i * PageSize;
          }
        }
        rows := total;
        return;
      }
    }
  }

  /** A source serving 1000, 1000 and then 400 rows. */
  function ThreePages(offset: nat): Response<int>
  {
    if offset < 2000 then Page(seq(1000, i => offset + i))
    else if offset == 2000 then Page(seq(400, i => offset + i))
    else Page([])
  }

  /** Against pages of 1000, 1000 and 400 rows, three requests gather 2400 rows. */
  method ThreePageExample() returns (count: nat, requests: nat)
    ensures count == 2400 && requests == 3
  {
    var rows, offsets := FetchData(ThreePages, 2);
    assert offsets[0] == 0 && offsets[1] == 1000;
    count, requests := |rows|, |offsets|;
  }
}
