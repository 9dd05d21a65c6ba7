# Art-Tools catalog: favorites, brand filter and feedback panel

A Dafny model of the logic inside the Art-Tools React Native catalog app.
The app fetches a list of art-tool products. The home screen lets the user
narrow the list to one brand and mark items as favorites with a heart button.
The favorite map is kept in device storage under the key `favoriteItem`.
A favorites provider holds the list of favorite products rebuilt from that
map; the app's navigator does not mount the provider, and the favorites
screen renders only a placeholder, so no screen displays that list.
A feedback panel component takes a list of feedbacks and computes an average
rating, a filter by exact rating, and five stars per feedback; none of the
app's screens renders it.

Modules:

- `Sequences`: the order-preserving filter (`Array.prototype.filter`), the
  first-seen de-duplication (`[...new Set(xs)]`), subsequences and first
  indices.
- `Catalog`: the product record.
- `Favorites`: the favorite map, the heart glyph, the toggle, the storage
  slot, and the load guard.
- `FavoriteItems`: the provider's favorite-id extraction and its projection
  of the catalog.
- `BrandFilter`: the distinct brand list and the `(selectedBrand,
  filteredArtTools)` state machine.
- `Home`: the home screen's state and event handlers, and a session replay.
- `Draft`: the earlier revision of the home screen, shown to agree with `Home`.
- `FeedbackPanel`: the rating total and average, the rating filter, and the
  star row.

Network fetches and storage reads and writes are parameters. A fetch result is
an `Option`: `Some` holds the parsed JSON array of products, and `None` is a
fetch that throws before any state is set, which the source catches and logs.
A body that parses to something other than an array is not modelled (see
"## Left out"). The
storage slot is a `Slot`: `Absent`, `Corrupt` (the value makes `JSON.parse`
throw), or `Saved(map)`. A write outcome is a `writeOk` flag.

## Model

| member | source | states |
|---|---|---|
| Sequences.Filter | components/Home.js:57 | the filter result is an order-preserving subsequence that keeps every occurrence of each element satisfying the predicate and no other element |
| Sequences.FilterUnique | context/FavoriteItemsContext.js:24 | the filter is the only order-preserving subsequence that keeps exactly the matching elements with their multiplicities |
| Sequences.Distinct | components/Home.js:25 | spreading a `Set` built from a list gives no duplicates, exactly the list's elements, ordered by first occurrence |
| Favorites.HeartIcon | components/Home.js:139-141 | the heart is filled exactly when the id reads as favorite; a missing key reads as not favorite |
| Favorites.Toggle | components/Home.js:73-76 | the toggled id reads as the opposite of before and is always present; every other key keeps its presence and value |
| Favorites.ToggleFavorite | components/Home.js:63-80 | the new map becomes the state; on a successful write the slot holds exactly that map, written whole; a failed write leaves the slot as it was while the state still changes |
| Favorites.LoadFavorites | components/Home.js:33-42 | a stored map replaces the state; an absent or unparsable value leaves the state unchanged |
| Favorites.LoadAfterToggle | components/Home.js:65 | a load after a successful toggle reads back exactly the toggled map, whatever the reader held before |
| Favorites.ToggleTimesParity | components/Home.js:73-76 | after n toggles of one id its reading is flipped exactly when n is odd, the key is present once n > 0, and no other key changes |
| Favorites.FreshIdParity | components/Home.js:75 | from an empty map, n toggles make the id a favorite exactly when n is odd |
| Favorites.ToggleTwiceFromEmpty | components/Home.js:73-76 | one toggle on a fresh id stores true; two toggles leave the key present with false |
| FavoriteItems.FavoriteIds | context/FavoriteItemsContext.js:17 | the favorite ids are exactly the stored keys whose value is true; keys stored with false are excluded |
| FavoriteItems.Project | context/FavoriteItemsContext.js:24 | the favorite items are an order-preserving subsequence of the catalog, no longer than it, holding exactly the catalog items whose id is a true-valued key, with their multiplicities |
| FavoriteItems.ProjectUnique | context/FavoriteItemsContext.js:24 | any order-preserving subsequence of the catalog that keeps exactly the favorite items with their multiplicities is the projection |
| FavoriteItems.DanglingIdContributesNothing | context/FavoriteItemsContext.js:24 | a favorite id with no catalog item adds no item, and dropping it from the map gives the same projection |
| FavoriteItems.ToggleThenProject | context/FavoriteItemsContext.js:17-24 | after toggling id k, items with id k enter or leave the projection as k's reading flips; all other items keep their status |
| FavoriteItems.GetFavoriteItems | context/FavoriteItemsContext.js:12-30 | with a stored map and a fetched catalog the list becomes exactly the projection: in catalog order, every occurrence of each item whose id is a true-valued key and nothing else; nothing stored, a corrupt value or a failed fetch leaves the list unchanged |
| FavoriteItems.EmptyUntilStored | context/FavoriteItemsContext.js:10-15 | the list starts empty and stays empty while no valid map is stored |
| FavoriteItems.DoubleToggleExcluded | context/FavoriteItemsContext.js:17 | after two toggles the key is present but the item is not projected |
| BrandFilter.BrandsOf | components/Home.js:25 | the mapped brand list has one entry per item, the item's brand |
| BrandFilter.UniqueBrands | components/Home.js:25 | the brand buttons have no duplicates, hold exactly the brands some item carries, and follow the order of each brand's first item |
| BrandFilter.ByBrand | components/Home.js:57 | the brand filter keeps, in catalog order, every item whose brand equals the given one exactly, and no other |
| BrandFilter.OfferedBrandMatches | components/Home.js:92-96 | every brand offered as a button selects at least one item |
| BrandFilter.Press | components/Home.js:51-60 | pressing the selected brand clears the selection and shows the whole catalog; another brand becomes the selection and exactly its items are shown in catalog order; the result is always consistent |
| BrandFilter.SelectionDeterminesView | components/Home.js:51-60 | in a consistent state the shown list is determined by the selection alone |
| BrandFilter.PressTwiceRestores | components/Home.js:52-54 | pressing one brand twice from the unfiltered state returns to it |
| BrandFilter.LastPressWins | components/Home.js:55-58 | after presses of two different brands the state is that of pressing the second brand alone |
| Home.Mount | components/Home.js:8-12 | the initial state has an empty catalog and list, no selection, an empty favorite map and so no filled heart, and already satisfies the screen invariant |
| Home.GetItem | components/Home.js:15-30 | a fetched catalog becomes the catalog and the shown list, with the brand buttons exactly the distinct brands in first-seen order; the selection and favorites are untouched; a failed fetch changes nothing |
| Home.LoadFavoritesInto | components/Home.js:33-42 | loading favorites changes only the favorite map, as `loadFavorites` decides |
| Home.FilterByBrand | components/Home.js:51-60 | a brand press changes only the brand view, by the filter state machine over the screen's own catalog |
| Home.TapHeart | components/Home.js:72-80 | a heart tap changes only the favorite map, by a toggle, and a successful write stores the new map whole |
| Home.TapFlipsHeart | components/Home.js:137-141 | the tapped heart switches glyph and every other heart keeps its glyph |
| Home.ProviderSeesTap | context/FavoriteItemsContext.js:14-24 | after a written tap the provider's refresh is the projection of the catalog on the home screen's map: every occurrence of each catalog item whose heart is filled there, in catalog order, and nothing else |
| Home.MountEffectsCommute | components/Home.js:45-48 | the catalog fetch and the favorites load started on mount give the same state in either completion order |
| Home.GetItemEstablishes | components/Home.js:21-26 | a fetch completing into an unfiltered screen leaves the whole catalog shown and the screen invariant holding |
| Home.ReplayKeepsInvariant | components/Home.js:51-80 | any sequence of brand presses, heart taps and favorite loads keeps the invariant and leaves the catalog and brand buttons unchanged |
| Home.SessionInvariant | components/Home.js:8-60 | from mount through the fetch and any user actions, the shown list is the catalog when nothing is selected and exactly the selected brand's items otherwise |
| Draft.Mount | draft.js:7-10 | the initial state has an empty catalog and list and no selection, and the list agrees with the empty catalog |
| Draft.GetItem | draft.js:12-24 | the fetched catalog is shown whole, and the brand list is duplicate-free, covers every brand, and is in first-seen order; a failed fetch changes nothing |
| Draft.FilterByBrand | draft.js:26-35 | pressing the selected brand restores the whole catalog; another brand selects it and shows exactly its items, compared case-sensitively, every occurrence, in catalog order; the shown list always agrees with the selection |
| Draft.AgreesWithHome | draft.js:12-35 | the earlier revision mounts, loads and filters exactly as the home screen does on the fields they share |
| FeedbackPanel.ReduceIsSum | components/Feedback.js:12-15 | the left fold of ratings from an accumulator equals the accumulator plus the reference sum |
| FeedbackPanel.TotalRating | components/Feedback.js:12-15 | the total, a left fold from 0, equals the sum of the ratings |
| FeedbackPanel.AverageRating | components/Feedback.js:9-17 | an empty list averages 0; otherwise the average times the count is the total |
| FeedbackPanel.SumWithin | components/Feedback.js:12-15 | n ratings in [lo, hi] total between lo·n and hi·n |
| FeedbackPanel.AverageWithin | components/Feedback.js:9-17 | the average of a non-empty list of ratings in [lo, hi] lies in [lo, hi] |
| FeedbackPanel.FilterFeedbacks | components/Feedback.js:20-25 | with no rating selected (null or 0) the list is returned unchanged; with rating r selected, exactly the feedbacks rated r, every occurrence, in their order |
| FeedbackPanel.ApplyRatingAction | components/Feedback.js:52-60 | the clear button resets the selection to `null`, so no rating is selected; a star button selects exactly its rating |
| FeedbackPanel.PickThenClearShowsAll | components/Feedback.js:52-60 | picking a rating and then clearing makes the filter return the whole list again |
| FeedbackPanel.StarRow | components/Feedback.js:77-82 | star i is filled exactly when i is below the rating, and the number of `true` entries in the drawn row is the rating clamped to [0, 5] |

## Left out

- Network fetches (components/Home.js:17-20, context/FavoriteItemsContext.js:20-21) are left out. Their results are `Option` parameters.
- Device storage reads and writes are left out. They become the `Slot` datatype and the `writeOk` flag. `JSON.stringify` and `JSON.parse` are library calls, so a stored value is either a map the app wrote or `Corrupt`.
- The provider's one-second polling loop (context/FavoriteItemsContext.js:32-39) is a timing concern. Each poll is one `GetFavoriteItems` call.
- Async interleaving is left out. Two toggles racing on a stale `favoriteItem` closure are not modelled, and events are applied one at a time.
- `Math.round(limitedTimeDeal * 100)` and `toFixed(1)` are floating-point formatting. The average is the exact real quotient.
- `index < averageRating` compares a number with the string from `toFixed` (components/Feedback.js:41). This JavaScript coercion is left out.
- App.js, components/ArtToolItem.js and components/FavoriteItems.js are navigation wiring and view markup. All styles and JSX rendering are left out too.
- The heart button of draft.js:78-84 is not modelled. Pressing it calls an undefined `toggleFavorite` and throws. The glyph reads `item.isFavorite`, a field the catalog records do not carry, so it always shows the outline.
- Text search by name, a bulk-selection set and multi-id removal are implemented by none of the modelled files, so they are not modelled.
- The source does not roll back a failed write. `toggleFavorite` updates the screen state before writing and only logs a failed write. `Favorites.ToggleFavorite` follows the code: the state changes and the slot keeps its old content.
- FavoriteItems.FavoriteIds: returns a set, not the `Object.keys` order, because the list is only queried with `includes`.
- FeedbackPanel.FilterFeedbacks: ratings are whole numbers. A fractional or `NaN` rating, or one stored as a string that `===` would not match, is not modelled.
- FeedbackPanel.StarRow: covers whole-number ratings only. The per-feedback comparison with a fractional rating is not modelled.
- Home.GetItem keeps `selectedBrand` while resetting the list to the whole catalog. This stays consistent only because `getItem` runs once on mount, before any brand button exists. `Home.GetItemEstablishes` assumes that unfiltered starting state.
- Home.GetItem: a response body that parses to JSON but is not an array (an error object or string) is not modelled. Home.js:21-22 store it as `artTools` and `filteredArtTools` before `json.map` on line 25 throws, so that failure does change the state. The model promises only that a fetch failing before line 21 changes nothing.
- Draft.GetItem: on the same non-array body, draft.js:16 stores it as `artTools` before line 18 throws and leaves `filteredArtTools` alone. The model does not cover this path.
- Draft.AgreesWithHome: agreement is stated for fetched arrays and fetches that fail before any state is set. On a non-array body the two revisions differ: only the home screen also resets the shown list.
- Favorites.HeartIcon: ids are assumed not to name members of `Object.prototype` such as `constructor` or `toString`. For such an id `favoriteItem[id]` finds the inherited member, so an untouched heart shows filled at Home.js:139. `Object.keys` in context/FavoriteItemsContext.js:17 ignores inherited names, so `Home.ProviderSeesTap` also assumes such ids do not occur.
- Favorites.Toggle: ids are assumed not to name `Object.prototype` members. For such an id the first toggle at Home.js:75 stores `false`, because `!favoriteItem[id]` negates the inherited member. The model stores `true`.
