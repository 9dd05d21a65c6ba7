/** The favorite-items provider (context/FavoriteItemsContext.js): it reads
    the stored favorite map, keeps the ids whose value is true, and projects
    the freshly fetched catalog onto them. */
module FavoriteItems {
  import opened Optional
  import opened Sequences
  import opened Catalog
  import opened Favorites

  /** `Object.keys(favorite).filter((key) => favorite[key])`. Only membership
      of this list is ever consulted, so it is kept as a set. */
  function FavoriteIds(m: FavoriteMap): (ids: set<string>)
    ensures ids <= m.Keys
    ensures forall k :: k in ids <==> IsFavorite(m, k)
  {
    set k | k in m && m[k]
  }

  /** `allItems.filter(item => favoriteID.includes(item.id))`. */
  function Project(catalog: seq<Item>, m: FavoriteMap): (r: seq<Item>)
    ensures IsSubseq(r, catalog)
    ensures |r| <= |catalog|
    ensures forall x :: x in r <==> x in catalog && IsFavorite(m, x.id)
    ensures forall x :: multiset(r)[x] == if IsFavorite(m, x.id) then multiset(catalog)[x] else 0
  {
    var ids := FavoriteIds(m);
    Filter((x: Item) => x.id in ids, catalog)
  }

  /** The projection is the only order-preserving subsequence of the catalog
      that keeps every occurrence of the favorite items and nothing else. */
  lemma ProjectUnique(catalog: seq<Item>, m: FavoriteMap, r: seq<Item>)
    requires IsSubseq(r, catalog)
    requires forall x :: multiset(r)[x] == if IsFavorite(m, x.id) then multiset(catalog)[x] else 0
    ensures r == Project(catalog, m)
  {
    var ids := FavoriteIds(m);
    FilterUnique((x: Item) => x.id in ids, catalog, r);
  }

  /** A favorite id that names no catalog item adds nothing to the list:
      dropping it from the map gives the same projection. */
  lemma DanglingIdContributesNothing(catalog: seq<Item>, m: FavoriteMap, k: string)
    requires IsFavorite(m, k)
    requires forall x :: x in catalog ==> x.id != k
    ensures forall x :: x in Project(catalog, m) ==> x.id != k
    ensures Project(catalog, m) == Project(catalog, m - {k})
  {
    var r := Project(catalog, m - {k});
    forall x: Item
      ensures multiset(r)[x] == if IsFavorite(m, x.id) then multiset(catalog)[x] else 0
    {
      if x.id == k {
        assert x !in catalog;
      } else {
        assert IsFavorite(m, x.id) == IsFavorite(m - {k}, x.id);
      }
    }
    ProjectUnique(catalog, m, r);
  }

  /** Flipping the favorite for `k` flips exactly the catalog items with id
      `k` in or out of the projection; every other item keeps its status. */
  lemma ToggleThenProject(catalog: seq<Item>, m: FavoriteMap, k: string)
    ensures forall x: Item :: x.id == k ==>
              (x in Project(catalog, Toggle(m, k)) <==> x in catalog && !IsFavorite(m, k))
    ensures forall x: Item :: x.id != k ==>
              (x in Project(catalog, Toggle(m, k)) <==> x in Project(catalog, m))
  {
  }

  /** `getFavoriteItems`: nothing stored leaves the list as it was, and so
      does a corrupt value or a failed fetch, both of which end in the
      `catch`. Otherwise the list becomes the projection of the fetched
      catalog. */
  function GetFavoriteItems(current: seq<Item>, slot: Slot, fetched: Option<seq<Item>>): (r: seq<Item>)
    ensures slot.Saved? && fetched.Some? ==>
              && r == Project(fetched.value, slot.favorites)
              && IsSubseq(r, fetched.value)
              && (forall x :: x in r <==> x in fetched.value && IsFavorite(slot.favorites, x.id))
              && forall x :: multiset(r)[x] ==
                   if IsFavorite(slot.favorites, x.id) then multiset(fetched.value)[x] else 0
    ensures !slot.Saved? || fetched.None? ==> r == current
  {
    match slot
    case Absent => current
    case Corrupt => current
    case Saved(stored) =>
      match fetched
      case None => current
      case Some(allItems) => Project(allItems, stored)
  }

  /** The provider's list starts out as `[]` and stays empty while no valid
      map is stored, whatever the catalog fetch returns. */
  lemma EmptyUntilStored(slot: Slot, fetched: Option<seq<Item>>)
    requires !slot.Saved?
    ensures GetFavoriteItems([], slot, fetched) == []
  {
  }

  /** After two toggles of the same id, the id is excluded again
      even though its key is now stored with `false`. */
  lemma DoubleToggleExcluded(catalog: seq<Item>, k: string)
    ensures var m := ToggleTimes(map[], k, 2);
            k in m && forall x :: x in Project(catalog, m) ==> x.id != k
  {
    ToggleTwiceFromEmpty(k);
  }
}
