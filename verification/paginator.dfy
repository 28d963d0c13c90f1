/** The two index-pagination schemes of the crawler. Search results are
    requested by page number (1, 2, 3, ...); a shop's items by offset
    (0, 100, 200, ...). Both stop at the first empty batch. The index
    endpoint is an oracle from cursor to batch; termination rests on the
    caller's promise that some cursor (`bound` steps in) yields an empty
    batch. */
module Paginator {

  datatype Mode = PageNumbers | Offsets

  const FirstPage: int := 1
  const FirstOffset: int := 0
  const ShopPageSize: int := 100

  /** The cursor of the first request. */
  function Start(mode: Mode): int
  {
    match mode
    case PageNumbers => FirstPage
    case Offsets => FirstOffset
  }

  /** The cursor update at the end of one loop iteration
      (`page_number += 1`, `offset += 100`). */
  function Advance(mode: Mode, cursor: int): int
  {
    match mode
    case PageNumbers => cursor + 1
    case Offsets => cursor + ShopPageSize
  }

  /** Closed form of the cursor of request number `n` (counting from 0). */
  function Cursor(mode: Mode, n: nat): int
  {
    match mode
    case PageNumbers => FirstPage + n
    case Offsets => ShopPageSize * n
  }

  /** The cursor as the loop computes it: the start value, advanced once
      per earlier request. */
  function Stepped(mode: Mode, n: nat): int
  {
    if n == 0 then Start(mode) else Advance(mode, Stepped(mode, n - 1))
  }

  /** The closed form is what the loop's stepping reaches: request `n` uses
      page `n + 1` in search mode and offset `100 n` in shop mode. */
  lemma {:induction false} CursorIsStepped(mode: Mode, n: nat)
    ensures Stepped(mode, n) == Cursor(mode, n)
    ensures mode == PageNumbers ==> Stepped(mode, n) == n + 1
    ensures mode == Offsets ==> Stepped(mode, n) == 100 * n
    decreases n
  {
    if n > 0 {
      CursorIsStepped(mode, n - 1);
    }
  }

  /** Consecutive requests differ by one loop update. */
  lemma CursorSteps(mode: Mode, n: nat)
    ensures Cursor(mode, 0) == Start(mode)
    ensures Cursor(mode, n + 1) == Advance(mode, Cursor(mode, n))
  {
  }

  /** Cursors of distinct requests differ, so no batch is requested twice. */
  lemma CursorInjective(mode: Mode, m: nat, n: nat)
    requires Cursor(mode, m) == Cursor(mode, n)
    ensures m == n
  {
  }

  /** Request number `j` returns a non-empty batch. */
  predicate HasBatch<T>(index: int -> seq<T>, mode: Mode, j: nat)
  {
    index(Cursor(mode, j)) != []
  }

  /** The batches the loop processes, starting at request `n`: every batch
      up to (not including) the first empty one, in request order. */
  function Walk<T>(index: int -> seq<T>, mode: Mode, n: nat, ghost bound: nat): (batches: seq<seq<T>>)
    requires n <= bound && !HasBatch(index, mode, bound)
    ensures n + |batches| <= bound
    ensures forall k :: 0 <= k < |batches| ==> batches[k] == index(Cursor(mode, n + k))
    ensures forall j :: n <= j < n + |batches| ==> HasBatch(index, mode, j)
    ensures !HasBatch(index, mode, n + |batches|)
    decreases bound - n
  {
    var batch := index(Cursor(mode, n));
    if batch == [] then [] else [batch] + Walk(index, mode, n + 1, bound)
  }

  /** The properties of `Walk` determine it: any list of batches read at
      consecutive cursors, all non-empty and followed by an empty one, is
      exactly `Walk`, whatever bound was used to define it. */
  lemma WalkUnique<T>(index: int -> seq<T>, mode: Mode, n: nat, bound: nat, batches: seq<seq<T>>)
    requires n <= bound && !HasBatch(index, mode, bound)
    requires forall k :: 0 <= k < |batches| ==> batches[k] == index(Cursor(mode, n + k))
    requires forall j :: n <= j < n + |batches| ==> HasBatch(index, mode, j)
    requires !HasBatch(index, mode, n + |batches|)
    ensures batches == Walk(index, mode, n, bound)
  {
  }

  /** One step of `Walk`: a non-empty batch at request `n` is followed by
      the batches from request `n + 1`. */
  lemma WalkUnfold<T>(index: int -> seq<T>, mode: Mode, n: nat, bound: nat)
    requires n <= bound && !HasBatch(index, mode, bound)
    requires HasBatch(index, mode, n)
    ensures n < bound
    ensures Walk(index, mode, n, bound) == [index(Cursor(mode, n))] + Walk(index, mode, n + 1, bound)
  {
  }

  /** The cursors of requests `n` to `n + count`: the requests the loop
      issues when `count` non-empty batches precede the first empty one. */
  function RequestedCursors(mode: Mode, n: nat, count: nat): (cs: seq<int>)
    ensures |cs| == count + 1
    ensures forall k :: 0 <= k < |cs| ==> cs[k] == Cursor(mode, n + k)
  {
    seq(count + 1, k requires 0 <= k => Cursor(mode, n + k))
  }

  lemma RequestedCursorsCons(mode: Mode, n: nat, count: nat)
    ensures RequestedCursors(mode, n, count + 1) == [Cursor(mode, n)] + RequestedCursors(mode, n + 1, count)
  {
  }

  /** Search pages requested are exactly 1, 2, ..., N + 1. */
  lemma SearchRequestsArePages(count: nat)
    ensures forall k :: 0 <= k <= count ==> RequestedCursors(PageNumbers, 0, count)[k] == k + 1
  {
  }

  /** Shop offsets requested are exactly 0, 100, ..., 100 N. */
  lemma ShopRequestsAreOffsets(count: nat)
    ensures forall k :: 0 <= k <= count ==> RequestedCursors(Offsets, 0, count)[k] == 100 * k
  {
  }
}
