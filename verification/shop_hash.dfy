/** Extraction of the seller hash from a storefront URL (the first lines of
    `parse_shop`): split the URL on '/', find the first segment mentioning
    the marketplace, and take the segment two places further on. */
module ShopHash {
  import opened Outcome
  import Text

  const MarketToken := "avito"
  const PathSeparator := '/'

  /** How the segment scan ends. `Found` may carry an empty hash (an empty
      segment two places after the match); `NoMarketSegment` leaves the hash
      at its initial ''; `HashPastEnd` is the IndexError raised when the
      matching segment is one of the last two. */
  datatype HashScan = Found(hash: string) | NoMarketSegment | HashPastEnd

  predicate IsMarketSegment(segment: string)
  {
    Text.Contains(MarketToken, segment)
  }

  /** Segment `i` is the first one mentioning the marketplace. */
  predicate IsFirstMarket(segments: seq<string>, i: nat)
  {
    && i < |segments|
    && IsMarketSegment(segments[i])
    && forall j :: 0 <= j < i ==> !IsMarketSegment(segments[j])
  }

  /** The `for ind in range(len(...))` loop, resumed at index `k`. */
  function ScanFrom(segments: seq<string>, k: nat): (r: HashScan)
    requires k <= |segments|
    requires forall j :: 0 <= j < k ==> !IsMarketSegment(segments[j])
    ensures (forall j :: 0 <= j < |segments| ==> !IsMarketSegment(segments[j])) ==> r == NoMarketSegment
    ensures forall i: nat :: IsFirstMarket(segments, i) ==>
      r == if i + 2 < |segments| then Found(segments[i + 2]) else HashPastEnd
    decreases |segments| - k
  {
    if k == |segments| then NoMarketSegment
    else if IsMarketSegment(segments[k]) then
      assert IsFirstMarket(segments, k);
      if k + 2 < |segments| then Found(segments[k + 2]) else HashPastEnd
    else ScanFrom(segments, k + 1)
  }

  /** The hash scan over the '/'-segments of `url`: no market segment leaves
      the hash empty; otherwise the outcome is decided by the first market
      segment alone. */
  function ScanHash(url: string): (r: HashScan)
    ensures var segments := Text.Split(url, PathSeparator);
      (forall j :: 0 <= j < |segments| ==> !IsMarketSegment(segments[j])) ==> r == NoMarketSegment
    ensures var segments := Text.Split(url, PathSeparator);
      forall i: nat :: IsFirstMarket(segments, i) ==>
        r == if i + 2 < |segments| then Found(segments[i + 2]) else HashPastEnd
  {
    var segments := Text.Split(url, PathSeparator);
    var r := ScanFrom(segments, 0);
    // Restating the no-match clause for this call lets the verifier match
    // it against ScanHash's own quantified clause.
    assert (forall j :: 0 <= j < |segments| ==> !IsMarketSegment(segments[j])) ==> r == NoMarketSegment;
    r
  }

  /** There is at most one first matching segment, so the characterisation
      of `ScanFrom` names a single outcome. */
  lemma FirstMarketUnique(segments: seq<string>, i: nat, j: nat)
    requires IsFirstMarket(segments, i) && IsFirstMarket(segments, j)
    ensures i == j
  {
  }

  /** A URL assembled as `prefix/.../<market segment>/<anything>/<hash>/...`
      yields `hash` when no earlier segment mentions the marketplace. */
  lemma ScanHashOfJoin(segments: seq<string>, i: nat)
    requires forall k :: 0 <= k < |segments| ==> PathSeparator !in segments[k]
    requires IsFirstMarket(segments, i) && i + 2 < |segments|
    ensures ScanHash(Text.Join(segments, PathSeparator)) == Found(segments[i + 2])
  {
    Text.SplitJoin(segments, PathSeparator);
  }
}
