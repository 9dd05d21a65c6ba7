/** The brand filter shared by the home screen (components/Home.js) and its
    earlier revision (draft.js): the distinct brands offered as buttons, and
    the two-field state `(selectedBrand, filteredArtTools)` that a button
    press moves between. */
module BrandFilter {
  import opened Optional
  import opened Sequences
  import opened Catalog

  /** `json.map((item) => item.brand)`. */
  function BrandsOf(catalog: seq<Item>): (bs: seq<string>)
    ensures |bs| == |catalog|
    ensures forall i :: 0 <= i < |catalog| ==> bs[i] == catalog[i].brand
  {
    seq(|catalog|, i requires 0 <= i < |catalog| => catalog[i].brand)
  }

  /** Some catalog item carries brand `b`. */
  predicate HasBrand(catalog: seq<Item>, b: string)
  {
    exists x :: x in catalog && x.brand == b
  }

  /** The brand list holds exactly the brands some item carries. */
  lemma BrandsOfHasBrand(catalog: seq<Item>, b: string)
    ensures b in BrandsOf(catalog) <==> HasBrand(catalog, b)
  {
    var bs := BrandsOf(catalog);
    if b in bs {
      var i :| 0 <= i < |bs| && bs[i] == b;
      assert catalog[i] in catalog;
    }
    if HasBrand(catalog, b) {
      var x :| x in catalog && x.brand == b;
      var i :| 0 <= i < |catalog| && catalog[i] == x;
      assert bs[i] == b;
    }
  }

  /** Position of the first catalog item carrying brand `b`. */
  function FirstCarrier(catalog: seq<Item>, b: string): (i: nat)
    requires HasBrand(catalog, b)
    ensures i < |catalog| && catalog[i].brand == b
    ensures forall k :: 0 <= k < i ==> catalog[k].brand != b
  {
    BrandsOfHasBrand(catalog, b);
    var i := FirstIndex(BrandsOf(catalog), b);
    assert forall k :: 0 <= k < i ==> BrandsOf(catalog)[..i][k] == catalog[k].brand;
    i
  }

  /** `[...new Set(json.map((item) => item.brand))]`: every brand once, in the
      order of the first item that carries it. */
  function UniqueBrands(catalog: seq<Item>): (brands: seq<string>)
    ensures NoDuplicates(brands)
    ensures forall b :: b in brands <==> HasBrand(catalog, b)
    ensures forall i, j :: 0 <= i < j < |brands| ==>
              FirstCarrier(catalog, brands[i]) < FirstCarrier(catalog, brands[j])
  {
    var bs := BrandsOf(catalog);
    forall b ensures b in bs <==> HasBrand(catalog, b) {
      BrandsOfHasBrand(catalog, b);
    }
    Distinct(bs)
  }

  /** `artTools.filter((item) => item.brand === brand)`: exact, case-sensitive
      comparison, catalog order kept. */
  function ByBrand(catalog: seq<Item>, brand: string): (r: seq<Item>)
    ensures IsSubseq(r, catalog)
    ensures forall x :: x in r <==> x in catalog && x.brand == brand
    ensures forall x :: multiset(r)[x] == if x.brand == brand then multiset(catalog)[x] else 0
  {
    Filter((x: Item) => x.brand == brand, catalog)
  }

  /** Every brand offered as a button selects at least one item. */
  lemma OfferedBrandMatches(catalog: seq<Item>, b: string)
    requires b in UniqueBrands(catalog)
    ensures |ByBrand(catalog, b)| > 0
  {
    var x :| x in catalog && x.brand == b;
    assert x in ByBrand(catalog, b);
  }

  /** The selected brand, `null` when no filter is applied, and the list on
      screen. */
  datatype BrandView = BrandView(selected: Option<string>, filtered: seq<Item>)

  /** No brand selected and the whole catalog shown: the state right after
      the catalog is fetched. */
  function Unfiltered(catalog: seq<Item>): BrandView
  {
    BrandView(None, catalog)
  }

  /** The invariant of the screen: with no selection the whole catalog is
      shown, with a selection exactly that brand's items are shown. */
  predicate Consistent(catalog: seq<Item>, v: BrandView)
  {
    match v.selected
    case None => v.filtered == catalog
    case Some(b) => v.filtered == ByBrand(catalog, b)
  }

  /** `filterByBrand`: pressing the selected brand clears the filter,
      pressing any other brand selects it. The new state is consistent with
      the catalog whatever the state before. */
  function Press(catalog: seq<Item>, v: BrandView, brand: string): (v': BrandView)
    ensures v.selected == Some(brand) ==> v'.selected == None && v'.filtered == catalog
    ensures v.selected != Some(brand) ==>
              && v'.selected == Some(brand)
              && IsSubseq(v'.filtered, catalog)
              && forall x :: x in v'.filtered <==> x in catalog && x.brand == brand
    ensures Consistent(catalog, v')
  {
    if Some(brand) == v.selected then Unfiltered(catalog)
    else BrandView(Some(brand), ByBrand(catalog, brand))
  }

  /** In a consistent state the list on screen is determined by the
      selection alone. */
  lemma SelectionDeterminesView(catalog: seq<Item>, v: BrandView, w: BrandView)
    requires Consistent(catalog, v) && Consistent(catalog, w)
    requires v.selected == w.selected
    ensures v == w
  {
  }

  /** Pressing the same brand twice from an unfiltered consistent state
      returns to it. */
  lemma PressTwiceRestores(catalog: seq<Item>, v: BrandView, brand: string)
    requires Consistent(catalog, v) && v.selected == None
    ensures Press(catalog, Press(catalog, v, brand), brand) == v
  {
  }

  /** After two presses of different brands the state is the one that
      pressing the second brand alone gives from the unfiltered state. */
  lemma LastPressWins(catalog: seq<Item>, v: BrandView, b: string, c: string)
    requires b != c
    ensures Press(catalog, Press(catalog, v, b), c) == Press(catalog, Unfiltered(catalog), c)
  {
  }
}
