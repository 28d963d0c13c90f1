/** The two public crawls of the parser, `parse_by_search` and `parse_shop`.
    Each is the source's `while True` loop: request an index batch, stop on
    an empty one, otherwise visit every stub of the batch (fetching its
    detail page) and append the resulting listings. A run records every
    request in order, so that what is fetched, and when, can be stated.
    The browser and JSON decoding are replaced by two oracles: the index
    endpoint (query and cursor to a batch of stubs) and the detail fetch
    (URL to a page, or `None` where the fetch raised). */
module Crawler {
  import opened Outcome
  import PageExtractor
  import Paginator
  import Seqs
  import ShopHash

  /** One entry of an index batch: the relative URL of the ad and, for search
      results, its `type` field. */
  datatype Stub = Stub(path: string, kind: string)

  /** One catalogue entry: the extracted fields and the absolute link. The
      condition is not part of the entry. */
  datatype Listing = Listing(
    title: string,
    description: string,
    price: int,
    sellerName: string,
    views: PageExtractor.Views,
    link: string)

  /** A request issued through the browser session. */
  datatype Fetch = IndexFetch(cursor: int) | DetailFetch(url: string)

  /** Everything one crawl did: the requests in issue order, and the catalogue. */
  datatype Run = Run(fetches: seq<Fetch>, catalogue: seq<Listing>)

  /** The errors a crawl raises to its caller: a region missing from the
      region table (KeyError), and a storefront URL whose marketplace
      segment is one of its last two (IndexError). */
  datatype CrawlError = UnknownRegion(region: string) | ShopUrlIndexError(url: string)

  const SiteRoot := "https://www.avito.ru"
  const ItemKind := "item"

  type DetailOracle = string -> Option<PageExtractor.Page>

  /** The record extracted for each detail URL. The loops are stated over
      this composition of the detail fetch with the extractor. */
  type Records = string -> PageExtractor.AdInfo

  function RecordsOf(detail: DetailOracle): Records
  {
    url => PageExtractor.Extract(detail(url))
  }

  function Link(s: Stub): string
  {
    SiteRoot + s.path
  }

  /** The catalogue entry built from a stub's extracted record. */
  function ListingOf(s: Stub, record: Records): Listing
  {
    var info := record(Link(s));
    Listing(info.title, info.description, info.price, info.sellerName, info.views, Link(s))
  }

  function Then(a: Run, b: Run): Run
  {
    Run(a.fetches + b.fetches, a.catalogue + b.catalogue)
  }

  // ---------------------------------------------------------------------
  // The loops as written

  /** The body of `for ad in ads` for one stub. Search mode skips stubs that
      are not items without fetching them, and drops records whose condition
      is not "new" after fetching them; shop mode keeps every stub. */
  function StubStep(mode: Paginator.Mode, s: Stub, record: Records): Run
  {
    match mode
    case PageNumbers =>
      if s.kind != ItemKind then Run([], [])
      else
        var info := record(Link(s));
        if info.condition != PageExtractor.NewCondition then Run([DetailFetch(Link(s))], [])
        else Run([DetailFetch(Link(s))], [ListingOf(s, record)])
    case Offsets =>
      Run([DetailFetch(Link(s))], [ListingOf(s, record)])
  }

  /** The `for ad in ads` loop over one batch. */
  function BatchStep(mode: Paginator.Mode, batch: seq<Stub>, record: Records): Run
    decreases |batch|
  {
    if |batch| == 0 then Run([], [])
    else Then(StubStep(mode, batch[0], record), BatchStep(mode, batch[1..], record))
  }

  /** The `while True` loop, at request `n` with the cursor the loop holds. */
  function Loop(mode: Paginator.Mode, index: int -> seq<Stub>, record: Records,
                cursor: int, ghost n: nat, ghost bound: nat): Run
    requires cursor == Paginator.Cursor(mode, n)
    requires n <= bound && !Paginator.HasBatch(index, mode, bound)
    decreases bound - n
  {
    var ads := index(cursor);
    if |ads| == 0 then Run([IndexFetch(cursor)], [])
    else
      Paginator.CursorSteps(mode, n);
      Then(Then(Run([IndexFetch(cursor)], []), BatchStep(mode, ads, record)),
           Loop(mode, index, record, Paginator.Advance(mode, cursor), n + 1, bound))
  }

  // ---------------------------------------------------------------------
  // Reference definitions

  function Flatten<T>(batches: seq<seq<T>>): seq<T>
    decreases |batches|
  {
    if |batches| == 0 then [] else batches[0] + Flatten(batches[1..])
  }

  /** The stubs whose detail page is requested. */
  predicate IsVisited(mode: Paginator.Mode, s: Stub)
  {
    mode == Paginator.Offsets || s.kind == ItemKind
  }

  /** The stubs that end up in the catalogue: search mode keeps items whose
      extracted condition is "new"; shop mode keeps everything. */
  predicate IsKept(mode: Paginator.Mode, s: Stub, record: Records)
  {
    match mode
    case PageNumbers =>
      s.kind == ItemKind && record(Link(s)).condition == PageExtractor.NewCondition
    case Offsets => true
  }

  /** What one stub contributes to the detail fetches: its page, when visited. */
  function VisitOf(mode: Paginator.Mode): Stub -> seq<string>
  {
    s => if IsVisited(mode, s) then [Link(s)] else []
  }

  /** What one stub contributes to the catalogue: its listing, when kept. */
  function KeptOf(mode: Paginator.Mode, record: Records): Stub -> seq<Listing>
  {
    s => if IsKept(mode, s, record) then [ListingOf(s, record)] else []
  }

  /** The detail pages of a list of stubs: the visited ones, in order. */
  function Visited(mode: Paginator.Mode, stubs: seq<Stub>): seq<string>
  {
    Seqs.ConcatMap(VisitOf(mode), stubs)
  }

  /** The catalogue of a list of stubs: the kept ones, in order. */
  function Select(mode: Paginator.Mode, stubs: seq<Stub>, record: Records): (cat: seq<Listing>)
    ensures |cat| <= |stubs|
  {
    Seqs.ConcatMapAtMostOne(KeptOf(mode, record), stubs);
    Seqs.ConcatMap(KeptOf(mode, record), stubs)
  }

  /** What one request contributes to each view of a request log. */
  function CursorOf(f: Fetch): seq<int>
  {
    if f.IndexFetch? then [f.cursor] else []
  }

  function UrlOf(f: Fetch): seq<string>
  {
    if f.DetailFetch? then [f.url] else []
  }

  /** The cursors of the index requests of a log, in order. */
  function IndexCursors(fetches: seq<Fetch>): seq<int>
  {
    Seqs.ConcatMap(CursorOf, fetches)
  }

  /** The URLs of the detail requests of a log, in order. */
  function DetailUrls(fetches: seq<Fetch>): seq<string>
  {
    Seqs.ConcatMap(UrlOf, fetches)
  }

  function DetailFetchOf(url: string): seq<Fetch>
  {
    [DetailFetch(url)]
  }

  /** One detail request per URL, in order. */
  function DetailFetches(urls: seq<string>): seq<Fetch>
  {
    Seqs.ConcatMap(DetailFetchOf, urls)
  }

  /** The request log of a crawl that processes `batches` from request `n`:
      each batch's index request immediately followed by the detail
      requests of its visited stubs, then the index request that returns
      the empty batch. */
  function WalkLog(mode: Paginator.Mode, batches: seq<seq<Stub>>, n: nat): seq<Fetch>
    decreases |batches|
  {
    if |batches| == 0 then [IndexFetch(Paginator.Cursor(mode, n))]
    else [IndexFetch(Paginator.Cursor(mode, n))] + DetailFetches(Visited(mode, batches[0])) + WalkLog(mode, batches[1..], n + 1)
  }

  // ---------------------------------------------------------------------
  // Distribution facts used by the loop proof

  lemma {:induction false} BatchCursors(mode: Paginator.Mode, batch: seq<Stub>, record: Records)
    ensures IndexCursors(BatchStep(mode, batch, record).fetches) == []
    decreases |batch|
  {
    if |batch| > 0 {
      BatchCursors(mode, batch[1..], record);
      Seqs.ConcatMapAppend(CursorOf, StubStep(mode, batch[0], record).fetches, BatchStep(mode, batch[1..], record).fetches);
    }
  }

  lemma {:induction false} BatchUrls(mode: Paginator.Mode, batch: seq<Stub>, record: Records)
    ensures DetailUrls(BatchStep(mode, batch, record).fetches) == Visited(mode, batch)
    decreases |batch|
  {
    if |batch| > 0 {
      BatchUrls(mode, batch[1..], record);
      Seqs.ConcatMapAppend(UrlOf, StubStep(mode, batch[0], record).fetches, BatchStep(mode, batch[1..], record).fetches);
    }
  }

  lemma {:induction false} BatchCatalogue(mode: Paginator.Mode, batch: seq<Stub>, record: Records)
    ensures BatchStep(mode, batch, record).catalogue == Select(mode, batch, record)
    decreases |batch|
  {
    if |batch| > 0 {
      BatchCatalogue(mode, batch[1..], record);
    }
  }

  /** One batch of the loop fetches exactly the visited stubs' pages, in
      order and with no index page among them, and contributes exactly the
      kept stubs' listings. */
  lemma BatchStepSpec(mode: Paginator.Mode, batch: seq<Stub>, record: Records)
    ensures BatchStep(mode, batch, record).fetches == DetailFetches(Visited(mode, batch))
    ensures IndexCursors(BatchStep(mode, batch, record).fetches) == []
    ensures DetailUrls(BatchStep(mode, batch, record).fetches) == Visited(mode, batch)
    ensures BatchStep(mode, batch, record).catalogue == Select(mode, batch, record)
  {
    BatchCursors(mode, batch, record);
    BatchUrls(mode, batch, record);
    BatchCatalogue(mode, batch, record);
    BatchStepLog(mode, batch, record);
  }

  /** One batch of the loop is exactly one detail request per visited stub,
      in stub order, with nothing in between. */
  lemma {:induction false} BatchStepLog(mode: Paginator.Mode, batch: seq<Stub>, record: Records)
    ensures BatchStep(mode, batch, record).fetches == DetailFetches(Visited(mode, batch))
    decreases |batch|
  {
    if |batch| > 0 {
      BatchStepLog(mode, batch[1..], record);
      var visit := VisitOf(mode)(batch[0]);
      assert StubStep(mode, batch[0], record).fetches == DetailFetches(visit) by {
        Seqs.ConcatMapSingle(DetailFetchOf, Link(batch[0]));
      }
      Seqs.ConcatMapAppend(DetailFetchOf, visit, Visited(mode, batch[1..]));
    }
  }

  lemma FlattenCons<T>(x: seq<T>, ys: seq<seq<T>>)
    ensures Flatten([x] + ys) == x + Flatten(ys)
  {
  }

  /** One iteration of the loop at request `n` with a non-empty batch:
      the index request, the batch, then the loop from request `n + 1`. */
  lemma LoopStep(mode: Paginator.Mode, index: int -> seq<Stub>, record: Records, n: nat, bound: nat)
    requires n <= bound && !Paginator.HasBatch(index, mode, bound)
    requires Paginator.HasBatch(index, mode, n)
    ensures n + 1 <= bound
    ensures var ads := index(Paginator.Cursor(mode, n));
      var here := Loop(mode, index, record, Paginator.Cursor(mode, n), n, bound);
      var next := Loop(mode, index, record, Paginator.Cursor(mode, n + 1), n + 1, bound);
      && here.fetches == [IndexFetch(Paginator.Cursor(mode, n))] + BatchStep(mode, ads, record).fetches + next.fetches
      && here.catalogue == BatchStep(mode, ads, record).catalogue + next.catalogue
  {
    Paginator.CursorSteps(mode, n);
  }

  /** The loop at request `n` with an empty batch: only the index request. */
  lemma LoopStop(mode: Paginator.Mode, index: int -> seq<Stub>, record: Records, n: nat, bound: nat)
    requires n <= bound && !Paginator.HasBatch(index, mode, bound)
    requires !Paginator.HasBatch(index, mode, n)
    ensures Loop(mode, index, record, Paginator.Cursor(mode, n), n, bound) == Run([IndexFetch(Paginator.Cursor(mode, n))], [])
    ensures Paginator.Walk(index, mode, n, bound) == []
    ensures IndexCursors([IndexFetch(Paginator.Cursor(mode, n))]) == [Paginator.Cursor(mode, n)]
    ensures DetailUrls([IndexFetch(Paginator.Cursor(mode, n))]) == []
  {
    Seqs.ConcatMapSingle(CursorOf, IndexFetch(Paginator.Cursor(mode, n)));
    Seqs.ConcatMapSingle(UrlOf, IndexFetch(Paginator.Cursor(mode, n)));
  }

  /** The batches from request `n` are the one at `n` followed by those from `n + 1`. */
  lemma WalkStep<T>(index: int -> seq<T>, mode: Paginator.Mode, n: nat, bound: nat)
    requires n <= bound && !Paginator.HasBatch(index, mode, bound)
    requires Paginator.HasBatch(index, mode, n)
    ensures n + 1 <= bound
    ensures |Paginator.Walk(index, mode, n, bound)| == |Paginator.Walk(index, mode, n + 1, bound)| + 1
    ensures Flatten(Paginator.Walk(index, mode, n, bound))
         == index(Paginator.Cursor(mode, n)) + Flatten(Paginator.Walk(index, mode, n + 1, bound))
  {
    Paginator.WalkUnfold(index, mode, n, bound);
    FlattenCons(index(Paginator.Cursor(mode, n)), Paginator.Walk(index, mode, n + 1, bound));
  }

  /** The index requests of one iteration: its own cursor, then the rest's. */
  lemma StepCursors(mode: Paginator.Mode, index: int -> seq<Stub>, record: Records, n: nat, bound: nat)
    requires n <= bound && !Paginator.HasBatch(index, mode, bound)
    requires Paginator.HasBatch(index, mode, n)
    ensures n + 1 <= bound
    ensures IndexCursors(Loop(mode, index, record, Paginator.Cursor(mode, n), n, bound).fetches)
         == [Paginator.Cursor(mode, n)] + IndexCursors(Loop(mode, index, record, Paginator.Cursor(mode, n + 1), n + 1, bound).fetches)
  {
    LoopStep(mode, index, record, n, bound);
    var head := [IndexFetch(Paginator.Cursor(mode, n))];
    var body := BatchStep(mode, index(Paginator.Cursor(mode, n)), record).fetches;
    var rest := Loop(mode, index, record, Paginator.Cursor(mode, n + 1), n + 1, bound).fetches;
    Seqs.ConcatMapAppend(CursorOf, head + body, rest);
    assert IndexCursors(head + body) == IndexCursors(head) + IndexCursors(body) by {
      Seqs.ConcatMapAppend(CursorOf, head, body);
    }
    assert IndexCursors(head) == [Paginator.Cursor(mode, n)];
    assert IndexCursors(body) == [] by {
      BatchCursors(mode, index(Paginator.Cursor(mode, n)), record);
    }
  }

  /** The detail requests of one iteration: the batch's visited stubs, then the rest's. */
  lemma StepUrls(mode: Paginator.Mode, index: int -> seq<Stub>, record: Records, n: nat, bound: nat)
    requires n <= bound && !Paginator.HasBatch(index, mode, bound)
    requires Paginator.HasBatch(index, mode, n)
    ensures n + 1 <= bound
    ensures DetailUrls(Loop(mode, index, record, Paginator.Cursor(mode, n), n, bound).fetches)
         == Visited(mode, index(Paginator.Cursor(mode, n))) + DetailUrls(Loop(mode, index, record, Paginator.Cursor(mode, n + 1), n + 1, bound).fetches)
  {
    LoopStep(mode, index, record, n, bound);
    var head := [IndexFetch(Paginator.Cursor(mode, n))];
    var body := BatchStep(mode, index(Paginator.Cursor(mode, n)), record).fetches;
    var rest := Loop(mode, index, record, Paginator.Cursor(mode, n + 1), n + 1, bound).fetches;
    Seqs.ConcatMapAppend(UrlOf, head + body, rest);
    assert DetailUrls(head + body) == DetailUrls(head) + DetailUrls(body) by {
      Seqs.ConcatMapAppend(UrlOf, head, body);
    }
    assert DetailUrls(head) == [];
    assert DetailUrls(body) == Visited(mode, index(Paginator.Cursor(mode, n))) by {
      BatchUrls(mode, index(Paginator.Cursor(mode, n)), record);
    }
  }

  /** The catalogue of one iteration: the batch's kept stubs, then the rest's. */
  lemma StepCatalogue(mode: Paginator.Mode, index: int -> seq<Stub>, record: Records, n: nat, bound: nat)
    requires n <= bound && !Paginator.HasBatch(index, mode, bound)
    requires Paginator.HasBatch(index, mode, n)
    ensures n + 1 <= bound
    ensures Loop(mode, index, record, Paginator.Cursor(mode, n), n, bound).catalogue == Select(mode, index(Paginator.Cursor(mode, n)), record) + Loop(mode, index, record, Paginator.Cursor(mode, n + 1), n + 1, bound).catalogue
  {
    LoopStep(mode, index, record, n, bound);
    BatchCatalogue(mode, index(Paginator.Cursor(mode, n)), record);
  }

  /** The loop's catalogue is the selection of the stubs of `Walk`'s batches,
      in page order then within-page order. */
  lemma {:induction false} LoopCatalogue(mode: Paginator.Mode, index: int -> seq<Stub>, record: Records, n: nat, bound: nat)
    requires n <= bound && !Paginator.HasBatch(index, mode, bound)
    ensures Loop(mode, index, record, Paginator.Cursor(mode, n), n, bound).catalogue
         == Select(mode, Flatten(Paginator.Walk(index, mode, n, bound)), record)
    decreases bound - n
  {
    if Paginator.HasBatch(index, mode, n) {
      StepCatalogue(mode, index, record, n, bound);
      WalkStep(index, mode, n, bound);
      LoopCatalogue(mode, index, record, n + 1, bound);
      Seqs.ConcatMapAppend(KeptOf(mode, record), index(Paginator.Cursor(mode, n)), Flatten(Paginator.Walk(index, mode, n + 1, bound)));
    } else {
      LoopStop(mode, index, record, n, bound);
    }
  }

  /** The loop's detail requests are the visited stubs of `Walk`'s batches, in order. */
  lemma {:induction false} LoopVisits(mode: Paginator.Mode, index: int -> seq<Stub>, record: Records, n: nat, bound: nat)
    requires n <= bound && !Paginator.HasBatch(index, mode, bound)
    ensures DetailUrls(Loop(mode, index, record, Paginator.Cursor(mode, n), n, bound).fetches)
         == Visited(mode, Flatten(Paginator.Walk(index, mode, n, bound)))
    decreases bound - n
  {
    if Paginator.HasBatch(index, mode, n) {
      StepUrls(mode, index, record, n, bound);
      WalkStep(index, mode, n, bound);
      LoopVisits(mode, index, record, n + 1, bound);
      Seqs.ConcatMapAppend(VisitOf(mode), index(Paginator.Cursor(mode, n)), Flatten(Paginator.Walk(index, mode, n + 1, bound)));
    } else {
      LoopStop(mode, index, record, n, bound);
    }
  }

  /** The loop requests exactly the cursors of `Walk`'s batches followed by
      the cursor of the first empty batch. */
  lemma {:induction false} LoopRequests(mode: Paginator.Mode, index: int -> seq<Stub>, record: Records, n: nat, bound: nat)
    requires n <= bound && !Paginator.HasBatch(index, mode, bound)
    ensures IndexCursors(Loop(mode, index, record, Paginator.Cursor(mode, n), n, bound).fetches)
         == Paginator.RequestedCursors(mode, n, |Paginator.Walk(index, mode, n, bound)|)
    decreases bound - n
  {
    if Paginator.HasBatch(index, mode, n) {
      StepCursors(mode, index, record, n, bound);
      WalkStep(index, mode, n, bound);
      LoopRequests(mode, index, record, n + 1, bound);
      Paginator.RequestedCursorsCons(mode, n, |Paginator.Walk(index, mode, n + 1, bound)|);
    } else {
      LoopStop(mode, index, record, n, bound);
    }
  }

  /** The loop's whole request log, interleaving included: each processed
      batch's index request, then that batch's detail requests before the
      next index request, and finally the request of the empty batch. */
  lemma {:induction false} LoopLog(mode: Paginator.Mode, index: int -> seq<Stub>, record: Records, n: nat, bound: nat)
    requires n <= bound && !Paginator.HasBatch(index, mode, bound)
    ensures Loop(mode, index, record, Paginator.Cursor(mode, n), n, bound).fetches
         == WalkLog(mode, Paginator.Walk(index, mode, n, bound), n)
    decreases bound - n
  {
    if Paginator.HasBatch(index, mode, n) {
      LoopStep(mode, index, record, n, bound);
      Paginator.WalkUnfold(index, mode, n, bound);
      LoopLog(mode, index, record, n + 1, bound);
      BatchStepLog(mode, index(Paginator.Cursor(mode, n)), record);
      var w := Paginator.Walk(index, mode, n, bound);
      assert w[0] == index(Paginator.Cursor(mode, n)) && w[1..] == Paginator.Walk(index, mode, n + 1, bound);
    } else {
      LoopStop(mode, index, record, n, bound);
    }
  }

  /** No request follows the empty batch: the loop's last request of any
      kind is the index request that returned it. */
  lemma {:induction false} LoopEndsAtEmptyBatch(mode: Paginator.Mode, index: int -> seq<Stub>, record: Records, n: nat, bound: nat)
    requires n <= bound && !Paginator.HasBatch(index, mode, bound)
    ensures var r := Loop(mode, index, record, Paginator.Cursor(mode, n), n, bound);
      && |r.fetches| > 0
      && r.fetches[|r.fetches| - 1] == IndexFetch(Paginator.Cursor(mode, n + |Paginator.Walk(index, mode, n, bound)|))
    decreases bound - n
  {
    if Paginator.HasBatch(index, mode, n) {
      LoopStep(mode, index, record, n, bound);
      WalkStep(index, mode, n, bound);
      LoopEndsAtEmptyBatch(mode, index, record, n + 1, bound);
      var head := [IndexFetch(Paginator.Cursor(mode, n))] + BatchStep(mode, index(Paginator.Cursor(mode, n)), record).fetches;
      var rest := Loop(mode, index, record, Paginator.Cursor(mode, n + 1), n + 1, bound).fetches;
      assert (head + rest)[|head + rest| - 1] == rest[|rest| - 1];
    } else {
      LoopStop(mode, index, record, n, bound);
    }
  }

  // ---------------------------------------------------------------------
  // Facts about the catalogue

  /** Every catalogue entry is the listing of some kept stub. */
  lemma {:induction false} SelectSound(mode: Paginator.Mode, stubs: seq<Stub>, record: Records)
    ensures forall j :: 0 <= j < |Select(mode, stubs, record)| ==>
      exists i :: 0 <= i < |stubs| && IsKept(mode, stubs[i], record) && Select(mode, stubs, record)[j] == ListingOf(stubs[i], record)
    decreases |stubs|
  {
    if |stubs| > 0 {
      var tail := stubs[1..];
      SelectSound(mode, tail, record);
      var cat := Select(mode, stubs, record);
      var tcat := Select(mode, tail, record);
      var d := if IsKept(mode, stubs[0], record) then 1 else 0;
      assert cat == (if d == 1 then [ListingOf(stubs[0], record)] else []) + tcat by {
        Seqs.ConcatMapCons(KeptOf(mode, record), stubs[0], tail);
        assert stubs == [stubs[0]] + tail;
      }
      forall j | 0 <= j < |cat|
        ensures exists i :: 0 <= i < |stubs| && IsKept(mode, stubs[i], record) && cat[j] == ListingOf(stubs[i], record)
      {
        if j < d {
          assert IsKept(mode, stubs[0], record) && cat[j] == ListingOf(stubs[0], record);
        } else {
          assert 0 <= j - d < |tcat| && cat[j] == tcat[j - d];
          var i :| 0 <= i < |tail| && IsKept(mode, tail[i], record) && tcat[j - d] == ListingOf(tail[i], record);
          assert stubs[i + 1] == tail[i];
        }
      }
    } else {
      assert |Select(mode, stubs, record)| == 0;
    }
  }

  /** Every kept stub's listing is in the catalogue. */
  lemma {:induction false} SelectComplete(mode: Paginator.Mode, stubs: seq<Stub>, record: Records)
    ensures forall i :: 0 <= i < |stubs| && IsKept(mode, stubs[i], record) ==> ListingOf(stubs[i], record) in Select(mode, stubs, record)
    decreases |stubs|
  {
    if |stubs| > 0 {
      var tail := stubs[1..];
      SelectComplete(mode, tail, record);
      forall i | 1 <= i < |stubs| && IsKept(mode, stubs[i], record)
        ensures ListingOf(stubs[i], record) in Select(mode, stubs, record)
      {
        assert stubs[i] == tail[i - 1];
      }
    }
  }

  /** In shop mode the catalogue has exactly one entry per stub, in order,
      linked to the site root followed by the stub's path. */
  lemma {:induction false} ShopCatalogueOnePerStub(stubs: seq<Stub>, record: Records)
    ensures var cat := Select(Paginator.Offsets, stubs, record);
      && |cat| == |stubs|
      && forall k :: 0 <= k < |stubs| ==> cat[k] == ListingOf(stubs[k], record) && cat[k].link == SiteRoot + stubs[k].path
    decreases |stubs|
  {
    if |stubs| > 0 {
      ShopCatalogueOnePerStub(stubs[1..], record);
    }
  }

  /** What a whole crawl from the first request produces, stated against
      the processed batches `w`: the interleaved request log, its index
      requests, its last request, its detail requests and the catalogue. */
  predicate CrawlsWalk(mode: Paginator.Mode, index: int -> seq<Stub>, record: Records, bound: nat, run: Run)
    requires !Paginator.HasBatch(index, mode, bound)
  {
    var w := Paginator.Walk(index, mode, 0, bound);
    && run.fetches == WalkLog(mode, w, 0)
    && IndexCursors(run.fetches) == Paginator.RequestedCursors(mode, 0, |w|)
    && |run.fetches| > 0
    && run.fetches[|run.fetches| - 1] == IndexFetch(Paginator.Cursor(mode, |w|))
    && DetailUrls(run.fetches) == Visited(mode, Flatten(w))
    && run.catalogue == Select(mode, Flatten(w), record)
  }

  /** The whole loop from the first request does what `CrawlsWalk` says. */
  lemma CrawlSpec(mode: Paginator.Mode, index: int -> seq<Stub>, record: Records, bound: nat)
    requires !Paginator.HasBatch(index, mode, bound)
    ensures CrawlsWalk(mode, index, record, bound, Loop(mode, index, record, Paginator.Start(mode), 0, bound))
  {
    Paginator.CursorSteps(mode, 0);
    LoopLog(mode, index, record, 0, bound);
    LoopRequests(mode, index, record, 0, bound);
    LoopEndsAtEmptyBatch(mode, index, record, 0, bound);
    LoopVisits(mode, index, record, 0, bound);
    LoopCatalogue(mode, index, record, 0, bound);
  }

  // ---------------------------------------------------------------------
  // The public crawls

  /** The search index for one query and region, as a function of the page. */
  function SearchIndex(index: (string, int, int) -> seq<Stub>, text: string, regionId: int): int -> seq<Stub>
  {
    page => index(text, regionId, page)
  }

  /** The shop index for one seller hash, as a function of the offset. */
  function ShopIndex(index: (string, int) -> seq<Stub>, hash: string): int -> seq<Stub>
  {
    offset => index(hash, offset)
  }

  /** `parse_by_search`: resolve the region (an unknown one raises before
      any request), then request pages 1, 2, ... until an empty one. The
      page number `1 + bound` is promised to be empty. */
  function ParseBySearch(regions: map<string, int>, text: string, region: string,
                         index: (string, int, int) -> seq<Stub>, detail: DetailOracle,
                         ghost bound: nat): (r: Result<Run, CrawlError>)
    requires region in regions ==> index(text, regions[region], Paginator.Cursor(Paginator.PageNumbers, bound)) == []
    ensures r.Failure? <==> region !in regions
    ensures r.Failure? ==> r.error == UnknownRegion(region)
    ensures r.Success? ==>
      && CrawlsWalk(Paginator.PageNumbers, SearchIndex(index, text, regions[region]), RecordsOf(detail), bound, r.value)
      && (forall k :: 0 <= k < |IndexCursors(r.value.fetches)| ==> IndexCursors(r.value.fetches)[k] == k + 1)
  {
    if region !in regions then Failure(UnknownRegion(region))
    else
      var pages := SearchIndex(index, text, regions[region]);
      CrawlSpec(Paginator.PageNumbers, pages, RecordsOf(detail), bound);
      Paginator.SearchRequestsArePages(|Paginator.Walk(pages, Paginator.PageNumbers, 0, bound)|);
      Success(Loop(Paginator.PageNumbers, pages, RecordsOf(detail), Paginator.Start(Paginator.PageNumbers), 0, bound))
  }

  /** `parse_shop`: scan the URL for the seller hash; a missing or empty hash
      gives an empty catalogue with no request at all, a market segment among
      the last two raises; otherwise request offsets 0, 100, ... until an
      empty batch. The offset `100 * bound` is promised to be empty. */
  function ParseShop(url: string, index: (string, int) -> seq<Stub>, detail: DetailOracle,
                     ghost bound: nat): (r: Result<Run, CrawlError>)
    requires ShopHash.ScanHash(url).Found? && ShopHash.ScanHash(url).hash != "" ==>
      index(ShopHash.ScanHash(url).hash, Paginator.Cursor(Paginator.Offsets, bound)) == []
    ensures r.Failure? <==> ShopHash.ScanHash(url).HashPastEnd?
    ensures r.Failure? ==> r.error == ShopUrlIndexError(url)
    ensures ShopHash.ScanHash(url).NoMarketSegment? || ShopHash.ScanHash(url) == ShopHash.Found("") ==>
      r == Success(Run([], []))
    ensures ShopHash.ScanHash(url).Found? && ShopHash.ScanHash(url).hash != "" ==>
      && r.Success?
      && CrawlsWalk(Paginator.Offsets, ShopIndex(index, ShopHash.ScanHash(url).hash), RecordsOf(detail), bound, r.value)
      && (forall k :: 0 <= k < |IndexCursors(r.value.fetches)| ==> IndexCursors(r.value.fetches)[k] == 100 * k)
  {
    match ShopHash.ScanHash(url)
    case HashPastEnd => Failure(ShopUrlIndexError(url))
    case NoMarketSegment => Success(Run([], []))
    case Found(hash) =>
      if hash == "" then Success(Run([], []))
      else
        var offsets := ShopIndex(index, hash);
        CrawlSpec(Paginator.Offsets, offsets, RecordsOf(detail), bound);
        Paginator.ShopRequestsAreOffsets(|Paginator.Walk(offsets, Paginator.Offsets, 0, bound)|);
        Success(Loop(Paginator.Offsets, offsets, RecordsOf(detail), Paginator.Start(Paginator.Offsets), 0, bound))
  }
}
