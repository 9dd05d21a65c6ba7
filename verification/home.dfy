/** The home screen (components/Home.js): the fetched catalog, the brand
    filter over it, the distinct brands offered as buttons, and the favorite
    map behind the heart buttons. */
module Home {
  import opened Optional
  import opened Sequences
  import opened Catalog
  import opened Favorites
  import opened BrandFilter
  import opened FavoriteItems

  /** The screen's `useState` slots: `artTools`, `brands`, the pair
      `(selectedBrand, filteredArtTools)`, and `favoriteItem`. */
  datatype HomeState = HomeState(
    artTools: seq<Item>,
    brands: seq<string>,
    view: BrandView,
    favoriteItem: FavoriteMap)

  /** The initial `useState` values: nothing fetched, nothing selected, no
      favorites. The screen invariant already holds. */
  function Mount(): (h: HomeState)
    ensures h.view.selected == None && h.view.filtered == h.artTools == []
    ensures Invariant(h)
    ensures h.favoriteItem.Keys == {}
    ensures forall id :: HeartIcon(h.favoriteItem, id) == Outline
  {
    assert UniqueBrands([]) == [];
    HomeState([], [], BrandView(None, []), map[])
  }

  /** What the screen keeps true: the list on screen agrees with the
      selection, and the buttons are the distinct brands of the catalog. */
  predicate Invariant(h: HomeState)
  {
    && Consistent(h.artTools, h.view)
    && h.brands == UniqueBrands(h.artTools)
  }

  /** `getItem`: a fetched array replaces the catalog, shows all of it and
      recomputes the brands; `selectedBrand` is not touched. A fetch that fails
      before any state is set ends in the `catch` and changes nothing. */
  function GetItem(h: HomeState, fetched: Option<seq<Item>>): (h': HomeState)
    ensures fetched.None? ==> h' == h
    ensures fetched.Some? ==>
              && h'.artTools == fetched.value
              && h'.view.filtered == fetched.value
              && h'.view.selected == h.view.selected
              && h'.favoriteItem == h.favoriteItem
              && h'.brands == UniqueBrands(fetched.value)
              && NoDuplicates(h'.brands)
              && (forall b :: b in h'.brands <==> HasBrand(fetched.value, b))
              && forall i, j :: 0 <= i < j < |h'.brands| ==>
                   FirstCarrier(fetched.value, h'.brands[i]) < FirstCarrier(fetched.value, h'.brands[j])
  {
    match fetched
    case None => h
    case Some(json) =>
      h.(artTools := json, view := h.view.(filtered := json), brands := UniqueBrands(json))
  }

  /** `loadFavorites`, applied to the screen. */
  function LoadFavoritesInto(h: HomeState, slot: Slot): (h': HomeState)
    ensures h'.favoriteItem == LoadFavorites(h.favoriteItem, slot)
    ensures h'.(favoriteItem := h.favoriteItem) == h
  {
    h.(favoriteItem := LoadFavorites(h.favoriteItem, slot))
  }

  /** `filterByBrand`, applied to the screen against its own catalog. */
  function FilterByBrand(h: HomeState, brand: string): (h': HomeState)
    ensures h'.view == Press(h.artTools, h.view, brand)
    ensures h'.(view := h.view) == h
  {
    h.(view := Press(h.artTools, h.view, brand))
  }

  /** The heart button: `toggleFavorite(item.id)` on the screen's map, with the
      storage write reported by `writeOk`. Nothing but the map changes on the
      screen. */
  function TapHeart(h: HomeState, slot: Slot, id: string, writeOk: bool): (r: (HomeState, Slot))
    ensures r.0.favoriteItem == Toggle(h.favoriteItem, id)
    ensures r.0.(favoriteItem := h.favoriteItem) == h
    ensures writeOk ==> r.1 == Saved(r.0.favoriteItem)
    ensures !writeOk ==> r.1 == slot
  {
    var t := ToggleFavorite(h.favoriteItem, slot, id, writeOk);
    (h.(favoriteItem := t.favorites), t.slot)
  }

  /** The tapped heart switches glyph; every other heart keeps its glyph. */
  lemma TapFlipsHeart(h: HomeState, slot: Slot, id: string, writeOk: bool, other: string)
    requires other != id
    ensures var h' := TapHeart(h, slot, id, writeOk).0;
            && HeartIcon(h'.favoriteItem, id) != HeartIcon(h.favoriteItem, id)
            && HeartIcon(h'.favoriteItem, other) == HeartIcon(h.favoriteItem, other)
  {
  }

  /** Once a tap has been written, the favorites provider's next refresh
      holds exactly the catalog items whose heart is filled on this screen,
      every occurrence, in catalog order. */
  lemma ProviderSeesTap(h: HomeState, slot: Slot, id: string, current: seq<Item>, allItems: seq<Item>)
    ensures var r := TapHeart(h, slot, id, true);
            var shown := GetFavoriteItems(current, r.1, Some(allItems));
            && shown == Project(allItems, r.0.favoriteItem)
            && IsSubseq(shown, allItems)
            && forall x :: multiset(shown)[x] ==
                 if HeartIcon(r.0.favoriteItem, x.id) == Filled then multiset(allItems)[x] else 0
  {
  }

  /** Right after mounting, the two effects can complete in either order. */
  lemma MountEffectsCommute(h: HomeState, fetched: Option<seq<Item>>, slot: Slot)
    ensures LoadFavoritesInto(GetItem(h, fetched), slot) == GetItem(LoadFavoritesInto(h, slot), fetched)
  {
  }

  /** The fetch completes into an unfiltered screen: the invariant holds
      afterwards, with the whole catalog on screen. */
  lemma GetItemEstablishes(h: HomeState, fetched: Option<seq<Item>>)
    requires Invariant(h) && h.view.selected == None
    ensures Invariant(GetItem(h, fetched))
    ensures fetched.Some? ==> GetItem(h, fetched).view == Unfiltered(fetched.value)
  {
  }

  /** The user actions after the catalog has arrived. */
  datatype Action =
    | PressBrand(brand: string)
    | TapHeartOf(id: string, writeOk: bool)
    | FavoritesRead

  /** Applying user actions in order; `FavoritesRead` is a `loadFavorites`
      completing against the current slot. */
  function Replay(h: HomeState, slot: Slot, actions: seq<Action>): (HomeState, Slot)
    decreases |actions|
  {
    if |actions| == 0 then (h, slot)
    else
      var next :=
        match actions[0]
        case PressBrand(b) => (FilterByBrand(h, b), slot)
        case TapHeartOf(id, ok) => TapHeart(h, slot, id, ok)
        case FavoritesRead => (LoadFavoritesInto(h, slot), slot);
      Replay(next.0, next.1, actions[1..])
  }

  /** Along any sequence of user actions the invariant is kept, the catalog
      never changes, and the brand buttons stay the same. */
  lemma {:induction false} ReplayKeepsInvariant(h: HomeState, slot: Slot, actions: seq<Action>)
    requires Invariant(h)
    ensures var r := Replay(h, slot, actions);
            Invariant(r.0) && r.0.artTools == h.artTools && r.0.brands == h.brands
    decreases |actions|
  {
    if |actions| > 0 {
      match actions[0]
      case PressBrand(b) =>
        ReplayKeepsInvariant(FilterByBrand(h, b), slot, actions[1..]);
      case TapHeartOf(id, ok) =>
        var t := TapHeart(h, slot, id, ok);
        ReplayKeepsInvariant(t.0, t.1, actions[1..]);
      case FavoritesRead =>
        ReplayKeepsInvariant(LoadFavoritesInto(h, slot), slot, actions[1..]);
    }
  }

  /** A whole session: mount, the catalog fetch completes, then any user
      actions. The list on screen is always the catalog or exactly one
      brand's items, in catalog order. */
  lemma SessionInvariant(fetched: Option<seq<Item>>, slot: Slot, actions: seq<Action>)
    ensures var h := Replay(GetItem(Mount(), fetched), slot, actions).0;
            && Invariant(h)
            && (h.view.selected.None? ==> h.view.filtered == h.artTools)
            && (h.view.selected.Some? ==> h.view.filtered == ByBrand(h.artTools, h.view.selected.value))
  {
    assert UniqueBrands([]) == [];
    GetItemEstablishes(Mount(), fetched);
    ReplayKeepsInvariant(GetItem(Mount(), fetched), slot, actions);
  }
}
