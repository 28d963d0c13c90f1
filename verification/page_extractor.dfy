/** The per-listing extractor (`__parse_ad_information`). The fetched detail
    page is abstracted to the values its element lookups return; the five
    field lookups run in a fixed order inside one `try`, and the first one
    that fails ends the extraction, keeping what was already assigned. */
module PageExtractor {
  import opened Outcome
  import Text

  /** What the five lookups and the parameter-row scan find on one detail
      page; `None` where the element (or its `content` attribute) is missing. */
  datatype Page = Page(
    title: Option<string>,
    description: Option<string>,
    priceContent: Option<string>,
    sellerName: Option<string>,
    viewsText: Option<string>,
    paramRows: seq<string>)

  /** The views field starts as the integer 0 and is otherwise the first token
      of the views text, a string. */
  datatype Views = ZeroViews | ViewsToken(token: string)

  datatype AdInfo = AdInfo(
    title: string,
    description: string,
    price: int,
    sellerName: string,
    condition: string,
    views: Views)

  const NewCondition := "Новое"
  const ConditionLabel := "Состояние"
  const NewMarker := "Нов"

  /** The record before any lookup has run. */
  const Defaults := AdInfo("", "", 0, "", "", ZeroViews)

  /** Number of field lookups, in assignment order: title, description,
      price, seller name, views. */
  const LookupCount: nat := 5

  /** Lookup `k` (in assignment order) succeeds on page `p`. */
  predicate LookupSucceeds(p: Page, k: nat)
  {
    if k == 0 then p.title.Some?
    else if k == 1 then p.description.Some?
    else if k == 2 then p.priceContent.Some? && Text.ParseInt(p.priceContent.value).Some?
    else if k == 3 then p.sellerName.Some?
    else if k == 4 then p.viewsText.Some? && Text.FirstToken(p.viewsText.value).Some?
    else false
  }

  function ReachedFrom(p: Page, k: nat): (n: nat)
    requires k <= LookupCount
    ensures k <= n <= LookupCount
    ensures forall j :: k <= j < n ==> LookupSucceeds(p, j)
    ensures n < LookupCount ==> !LookupSucceeds(p, n)
    decreases LookupCount - k
  {
    if k < LookupCount && LookupSucceeds(p, k) then ReachedFrom(p, k + 1) else k
  }

  /** How many lookups succeed before the first failure: 0 when the page
      could not be fetched, `LookupCount` when none fails. */
  function Reached(page: Option<Page>): (n: nat)
    ensures n <= LookupCount
    ensures page.None? ==> n == 0
    ensures page.Some? ==> forall j :: 0 <= j < n ==> LookupSucceeds(page.value, j)
    ensures page.Some? && n < LookupCount ==> !LookupSucceeds(page.value, n)
  {
    if page.None? then 0 else ReachedFrom(page.value, 0)
  }

  /** A parameter row that marks the item as new. */
  predicate IsNewConditionRow(row: string)
  {
    Text.Contains(ConditionLabel, row) && Text.Contains(NewMarker, row)
  }

  function ScanRowsFrom(rows: seq<string>, k: nat): (r: Option<nat>)
    requires k <= |rows|
    ensures r.Some? ==> k <= r.value < |rows| && IsNewConditionRow(rows[r.value])
    ensures r.Some? ==> forall j :: k <= j < r.value ==> !IsNewConditionRow(rows[j])
    ensures r.None? ==> forall j :: k <= j < |rows| ==> !IsNewConditionRow(rows[j])
    decreases |rows| - k
  {
    if k == |rows| then None
    else if IsNewConditionRow(rows[k]) then Some(k)
    else ScanRowsFrom(rows, k + 1)
  }

  /** The row at which the condition scan stops (`break`), if any. */
  function FirstNewConditionRow(rows: seq<string>): (r: Option<nat>)
    ensures r.Some? ==> r.value < |rows| && IsNewConditionRow(rows[r.value])
    ensures r.Some? ==> forall j :: 0 <= j < r.value ==> !IsNewConditionRow(rows[j])
    ensures r.None? <==> forall j :: 0 <= j < |rows| ==> !IsNewConditionRow(rows[j])
  {
    ScanRowsFrom(rows, 0)
  }

  /** `__parse_ad_information` after the fetch: `None` stands for a fetch
      that raised. The fields are assigned one by one; the first lookup that
      raises leaves the remaining fields at their defaults, and the
      condition scan only runs when all five lookups succeeded. Nothing
      escapes: every page, fetched or not, yields a record.
      The contract states each field in terms of `Reached`, the index of the
      first failing lookup. */
  function Extract(page: Option<Page>): (ad: AdInfo)
    ensures ad.title == if Reached(page) > 0 then page.value.title.value else ""
    ensures ad.description == if Reached(page) > 1 then page.value.description.value else ""
    ensures ad.price == if Reached(page) > 2 then Text.ParseInt(page.value.priceContent.value).value else 0
    ensures ad.sellerName == if Reached(page) > 3 then page.value.sellerName.value else ""
    ensures ad.views == if Reached(page) > 4 then ViewsToken(Text.FirstToken(page.value.viewsText.value).value) else ZeroViews
    ensures ad.condition == if Reached(page) == LookupCount && FirstNewConditionRow(page.value.paramRows).Some? then NewCondition else ""
  {
    if page.None? then Defaults
    else
      var p := page.value;
      if p.title.None? then Defaults
      else
        var a1 := Defaults.(title := p.title.value);
        if p.description.None? then a1
        else
          var a2 := a1.(description := p.description.value);
          var price := if p.priceContent.Some? then Text.ParseInt(p.priceContent.value) else None;
          if price.None? then a2
          else
            var a3 := a2.(price := price.value);
            if p.sellerName.None? then a3
            else
              var a4 := a3.(sellerName := p.sellerName.value);
              var views := if p.viewsText.Some? then Text.FirstToken(p.viewsText.value) else None;
              if views.None? then a4
              else
                var a5 := a4.(views := ViewsToken(views.value));
                if FirstNewConditionRow(p.paramRows).Some? then a5.(condition := NewCondition) else a5
  }

  /** The condition is only ever the default or the "new" marker value. */
  lemma ConditionIsNewOrEmpty(page: Option<Page>)
    ensures Extract(page).condition in {"", NewCondition}
  {
  }

  /** The condition is "new" exactly when the page was fetched, all five
      lookups succeeded and some parameter row carries both markers. */
  lemma ConditionNewIff(page: Option<Page>)
    ensures Extract(page).condition == NewCondition <==>
      && page.Some?
      && (forall k :: 0 <= k < LookupCount ==> LookupSucceeds(page.value, k))
      && exists j :: 0 <= j < |page.value.paramRows| && IsNewConditionRow(page.value.paramRows[j])
  {
  }

  /** The fail-soft policy field by field: if lookup `k` is the first to
      fail, every field assigned before it holds its extracted value and
      every field from `k` on holds its default. */
  lemma FailSoftPrefix(p: Page, k: nat)
    requires k < LookupCount
    requires forall j :: 0 <= j < k ==> LookupSucceeds(p, j)
    requires !LookupSucceeds(p, k)
    ensures var ad := Extract(Some(p));
      && ad.title == (if k > 0 then p.title.value else "")
      && ad.description == (if k > 1 then p.description.value else "")
      && ad.price == (if k > 2 then Text.ParseInt(p.priceContent.value).value else 0)
      && ad.sellerName == (if k > 3 then p.sellerName.value else "")
      && ad.views == ZeroViews
      && ad.condition == ""
  {
  }

  /** A page that could not be fetched, or whose title is missing, yields the
      all-defaults record. */
  lemma UnfetchedIsDefaults(page: Option<Page>)
    requires page.None? || page.value.title.None?
    ensures Extract(page) == Defaults
  {
  }
}
