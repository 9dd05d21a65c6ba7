/** The favorite map of the home screen (components/Home.js): an object from
    item id to a boolean, flipped by the heart button and written whole to
    the `favoriteItem` storage key. */
module Favorites {

  type FavoriteMap = map<string, bool>

  /** Reading the map as the heart button does: a missing key is `undefined`,
      which is falsy, so it reads as "not favorite". */
  predicate IsFavorite(m: FavoriteMap, id: string)
  {
    id in m && m[id]
  }

  /** The two glyphs the heart button shows. */
  datatype Heart = Filled | Outline

  /** `heart` when the id reads as favorite, `heart-outline` otherwise. */
  function HeartIcon(m: FavoriteMap, id: string): (h: Heart)
    ensures h == Filled <==> IsFavorite(m, id)
  {
    if id in m && m[id] then Filled else Outline
  }

  /** `{...favoriteItem, [id]: !favoriteItem[id]}`: the spread copies every
      key, then `id` is written with the negation of its current reading. */
  function Toggle(m: FavoriteMap, id: string): (m': FavoriteMap)
    ensures id in m'
    ensures IsFavorite(m', id) <==> !IsFavorite(m, id)
    ensures m'.Keys == m.Keys + {id}
    ensures forall j :: j != id && j in m ==> m'[j] == m[j]
  {
    m[id := !(id in m && m[id])]
  }

  /** The storage slot under the `favoriteItem` key: nothing written yet, a
      value that is not valid JSON, or a serialized map. */
  datatype Slot = Absent | Corrupt | Saved(favorites: FavoriteMap)

  /** What a toggle leaves behind: the new in-memory map and the slot. */
  datatype Toggled = Toggled(favorites: FavoriteMap, slot: Slot)

  /** `toggleFavorite`: the new map becomes the screen's state and is then
      written whole to storage. A failed write is only logged, so the screen
      keeps the new map while the slot keeps its old content. */
  function ToggleFavorite(m: FavoriteMap, slot: Slot, id: string, writeOk: bool): (t: Toggled)
    ensures t.favorites == Toggle(m, id)
    ensures id in t.favorites
    ensures IsFavorite(t.favorites, id) <==> !IsFavorite(m, id)
    ensures forall j :: j != id ==> (j in t.favorites <==> j in m)
    ensures forall j :: j != id && j in m ==> t.favorites[j] == m[j]
    ensures writeOk ==> t.slot == Saved(t.favorites)
    ensures !writeOk ==> t.slot == slot
  {
    var updated := Toggle(m, id);
    Toggled(updated, if writeOk then Saved(updated) else slot)
  }

  /** `loadFavorites`: an absent value is skipped by the `if`, a corrupt one
      makes `JSON.parse` throw into the `catch`; in both cases the state is
      left as it was. Otherwise the stored map replaces the state. */
  function LoadFavorites(m: FavoriteMap, slot: Slot): (m': FavoriteMap)
    ensures slot.Saved? ==> m' == slot.favorites
    ensures !slot.Saved? ==> m' == m
  {
    match slot
    case Absent => m
    case Corrupt => m
    case Saved(stored) => stored
  }

  /** A load issued after a successful toggle reads back exactly the map the
      toggle produced, whatever state the reading screen had. */
  lemma LoadAfterToggle(m: FavoriteMap, slot: Slot, id: string, other: FavoriteMap)
    ensures var t := ToggleFavorite(m, slot, id, true);
            LoadFavorites(other, t.slot) == t.favorites
  {
  }

  /** The same id toggled `n` times in a row. */
  function ToggleTimes(m: FavoriteMap, id: string, n: nat): FavoriteMap
  {
    if n == 0 then m else Toggle(ToggleTimes(m, id, n - 1), id)
  }

  /** Toggling `n` times flips the reading of `id` exactly when `n` is odd,
      leaves the key present after any toggle, and changes no other key. */
  lemma {:induction false} ToggleTimesParity(m: FavoriteMap, id: string, n: nat)
    ensures IsFavorite(ToggleTimes(m, id, n), id) <==> (IsFavorite(m, id) != (n % 2 == 1))
    ensures n > 0 ==> id in ToggleTimes(m, id, n)
    ensures forall j :: j != id ==> (j in ToggleTimes(m, id, n) <==> j in m)
    ensures forall j :: j != id && j in m ==> ToggleTimes(m, id, n)[j] == m[j]
  {
    if n > 0 {
      ToggleTimesParity(m, id, n - 1);
    }
  }

  /** From an empty map, an odd number of toggles makes the id a favorite and
      an even number does not. */
  lemma FreshIdParity(id: string, n: nat)
    ensures IsFavorite(ToggleTimes(map[], id, n), id) <==> n % 2 == 1
  {
    ToggleTimesParity(map[], id, n);
  }

  /** One toggle on a fresh id stores `true`; a second leaves the key in place
      with `false`. */
  lemma ToggleTwiceFromEmpty(id: string)
    ensures ToggleTimes(map[], id, 1) == map[id := true]
    ensures ToggleTimes(map[], id, 2) == map[id := false]
  {
    var empty: FavoriteMap := map[];
    assert ToggleTimes(empty, id, 0) == empty;
    var once := ToggleTimes(empty, id, 1);
    assert once == Toggle(empty, id);
    assert once.Keys == {id};
    assert ToggleTimes(map[], id, 2) == Toggle(once, id);
  }
}
