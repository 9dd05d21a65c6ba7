/** The earlier revision of the home screen (draft.js): the same brand filter
    without favorites. */
module Draft {
  import opened Optional
  import opened Sequences
  import opened Catalog
  import opened BrandFilter
  import Home

  /** The revision's `useState` slots: `artTools`, `brands` and the pair
      `(selectedBrand, filteredArtTools)`. */
  datatype DraftState = DraftState(artTools: seq<Item>, brands: seq<string>, view: BrandView)

  /** The initial `useState` values: nothing fetched and nothing selected,
      with the list on screen consistent with the empty catalog. */
  function Mount(): (d: DraftState)
    ensures d.view.selected == None && d.view.filtered == d.artTools == []
    ensures Consistent(d.artTools, d.view) && d.brands == UniqueBrands(d.artTools)
  {
    assert UniqueBrands([]) == [];
    DraftState([], [], BrandView(None, []))
  }

  /** `getItem`: the brands are computed before the list is reset to the
      whole catalog; for a fetched array this order makes no difference to
      the resulting state. A failed fetch changes nothing. */
  function GetItem(d: DraftState, fetched: Option<seq<Item>>): (d': DraftState)
    ensures fetched.None? ==> d' == d
    ensures fetched.Some? ==>
              && d'.artTools == fetched.value
              && d'.view.filtered == fetched.value
              && d'.view.selected == d.view.selected
              && d'.brands == UniqueBrands(fetched.value)
              && NoDuplicates(d'.brands)
              && (forall b :: b in d'.brands <==> HasBrand(fetched.value, b))
              && forall i, j :: 0 <= i < j < |d'.brands| ==>
                   FirstCarrier(fetched.value, d'.brands[i]) < FirstCarrier(fetched.value, d'.brands[j])
  {
    match fetched
    case None => d
    case Some(json) =>
      var withBrands := d.(artTools := json, brands := UniqueBrands(json));
      withBrands.(view := withBrands.view.(filtered := json))
  }

  /** `filterByBrand`: pressing the selected brand restores the whole
      catalog; another brand selects it and keeps exactly its items, by
      case-sensitive equality, in catalog order. */
  function FilterByBrand(d: DraftState, brand: string): (d': DraftState)
    ensures d.view.selected == Some(brand) ==> d'.view == Unfiltered(d.artTools)
    ensures d.view.selected != Some(brand) ==>
              && d'.view.selected == Some(brand)
              && d'.view.filtered == ByBrand(d.artTools, brand)
              && IsSubseq(d'.view.filtered, d.artTools)
              && (forall x :: x in d'.view.filtered <==> x in d.artTools && x.brand == brand)
              && forall x :: multiset(d'.view.filtered)[x] ==
                   if x.brand == brand then multiset(d.artTools)[x] else 0
    ensures Consistent(d'.artTools, d'.view)
    ensures d'.artTools == d.artTools && d'.brands == d.brands
  {
    d.(view := Press(d.artTools, d.view, brand))
  }

  /** The draft's brand-filter fields of a home screen. */
  function FromHome(h: Home.HomeState): DraftState
  {
    DraftState(h.artTools, h.brands, h.view)
  }

  /** Both revisions load and filter the same way: the draft follows the
      home screen step for step on the fields they share. */
  lemma AgreesWithHome(h: Home.HomeState, fetched: Option<seq<Item>>, brand: string)
    ensures FromHome(Home.Mount()) == Mount()
    ensures FromHome(Home.GetItem(h, fetched)) == GetItem(FromHome(h), fetched)
    ensures FromHome(Home.FilterByBrand(h, brand)) == FilterByBrand(FromHome(h), brand)
  {
  }
}
