/** The favorites hook (src/features/favorites/model/use-favorites.ts): the
    in-memory list, and `add`, `remove`, `rename` and `isFavorite` over it. */
module FavoritesStore {
  import opened Wrappers
  import opened JsonValue
  import JsText
  import opened FavoritesStorage

  /** The `reason` of a failed `add` (`limit`, `duplicate`, `storage`) or
      `rename` (`empty`, `storage`). */
  datatype Reason = Limit | Duplicate | Storage | Empty

  /** `AddFavoriteResult` and `RenameFavoriteResult`. */
  datatype Outcome = Succeeded(item: FavoritePlace) | Failed(reason: Reason)

  /** The `ids` set the hook memoises. */
  function Ids(items: seq<FavoritePlace>): set<string> {
    set p | p in items :: p.id
  }

  predicate UniqueIds(items: seq<FavoritePlace>) {
    forall i, j :: 0 <= i < j < |items| ==> items[i].id != items[j].id
  }

  /** `items.filter((i) => i.id !== id)`. */
  function Without(items: seq<FavoritePlace>, id: string): (r: seq<FavoritePlace>)
    ensures id !in Ids(r)
    ensures forall p :: p in r <==> p in items && p.id != id
    ensures Ids(r) == Ids(items) - {id}
    ensures |r| <= |items|
  {
    if items == [] then []
    else (if items[0].id == id then [] else [items[0]]) + Without(items[1..], id)
  }

  /** Removing an id that is not present leaves the list as it was. */
  lemma {:induction false} WithoutAbsent(items: seq<FavoritePlace>, id: string)
    requires id !in Ids(items)
    ensures Without(items, id) == items
  {
    if items != [] {
      WithoutAbsent(items[1..], id);
      assert items == [items[0]] + items[1..];
    }
  }

  /** Removing keeps the remaining entries in order, so ids stay unique. */
  lemma {:induction false} WithoutUnique(items: seq<FavoritePlace>, id: string)
    requires UniqueIds(items)
    ensures UniqueIds(Without(items, id))
  {
    if items != [] {
      var rest := Without(items[1..], id);
      WithoutUnique(items[1..], id);
      if items[0].id != id {
        forall j | 0 <= j < |rest| ensures items[0].id != rest[j].id {
          assert rest[j] in items[1..];
        }
        assert forall j :: 0 < j < |[items[0]] + rest| ==> ([items[0]] + rest)[j] == rest[j - 1];
      }
    }
  }

  /** Appending an entry whose id is not listed keeps ids unique. */
  lemma AppendFreshUnique(items: seq<FavoritePlace>, item: FavoritePlace)
    requires item.id !in Ids(items)
    ensures UniqueIds(items) ==> UniqueIds(items + [item])
  {
    assert forall j :: 0 <= j < |items| ==> (items + [item])[j] == items[j] && items[j] in items;
  }

  /** `items.find((i) => i.id === id)`. */
  function Find(items: seq<FavoritePlace>, id: string): (r: Option<FavoritePlace>)
    ensures r.None? <==> id !in Ids(items)
    ensures r.Some? ==> r.value in items && r.value.id == id
  {
    if items == [] then None
    else if items[0].id == id then Some(items[0])
    else
      assert Ids(items) == {items[0].id} + Ids(items[1..]) by {
        assert items == [items[0]] + items[1..];
      }
      Find(items[1..], id)
  }

  /** `find` returns the first entry with that id. */
  lemma {:induction false} FindFirst(items: seq<FavoritePlace>, id: string, i: nat)
    requires i < |items| && items[i].id == id
    requires forall j :: 0 <= j < i ==> items[j].id != id
    ensures Find(items, id) == Some(items[i])
  {
    if i > 0 {
      assert forall j :: 0 <= j < i - 1 ==> items[1..][j] == items[j + 1];
      FindFirst(items[1..], id, i - 1);
    }
  }

  /** `items.map((i) => (i.id === id ? { ...i, placeName } : i))`. */
  function Renamed(items: seq<FavoritePlace>, id: string, name: string): seq<FavoritePlace> {
    seq(|items|, i requires 0 <= i < |items| => if items[i].id == id then items[i].(placeName := name) else items[i])
  }

  /** Renaming touches no id, so the set of ids and their uniqueness are kept. */
  lemma RenamedKeepsIds(items: seq<FavoritePlace>, id: string, name: string)
    ensures Ids(Renamed(items, id, name)) == Ids(items)
    ensures UniqueIds(items) ==> UniqueIds(Renamed(items, id, name))
  {
    var r := Renamed(items, id, name);
    forall x | x in Ids(items) ensures x in Ids(r) {
      var i :| 0 <= i < |items| && items[i].id == x;
      assert r[i].id == x;
    }
    forall x | x in Ids(r) ensures x in Ids(items) {
      var i :| 0 <= i < |r| && r[i].id == x;
      assert items[i].id == x;
    }
  }

  class Favorites {
    /** The favorites shown, oldest first. */
    var items: seq<FavoritePlace>
    /** Every list `saveFavorites` has written from this hook, oldest first. */
    ghost var writes: seq<seq<FavoritePlace>>

    /** The list never exceeds the limit, and once this hook has written, the
        last write is what it shows. */
    ghost predicate Valid()
      reads this
    {
      |items| <= FavoritesLimit && (writes != [] ==> writes[|writes| - 1] == items)
    }

    /** The hook's initial state: whatever `loadFavorites` reads. */
    constructor (raw: Option<string>, parse: string -> Option<Json>)
      ensures Valid()
      ensures items == Load(raw, parse) && writes == []
    {
      var loaded := LoadFavorites(raw, parse);
      items := loaded;
      writes := [];
    }

    /** `saveFavorites(next)`, whose write may throw. */
    method Save(next: seq<FavoritePlace>, throws: bool) returns (saved: bool)
      modifies this`writes
      ensures saved == !throws
      ensures writes == if throws then old(writes) else old(writes) + [Saved(next)]
    {
      if throws {
        return false;
      }
      writes := writes + [Saved(next)];
      return true;
    }

    /** `isFavorite(lat, lon)`: whether the id of those coordinates is listed. */
    method IsFavorite(lat: real, lon: real) returns (b: bool)
      ensures b <==> exists i :: 0 <= i < |items| && items[i].id == MakePlaceId(lat, lon)
    {
      var ids := Ids(items);
      b := MakePlaceId(lat, lon) in ids;
    }

    /** `add(place)`, with `createdAt` the clock reading `now` and `saveThrows`
        whether the write throws. The checks run in a fixed order: blank name,
        then duplicate id, then the limit. */
    method Add(placeName: string, lat: real, lon: real, now: real, saveThrows: bool) returns (r: Outcome)
      requires Valid()
      modifies this
      ensures Valid()
      ensures var name := JsText.Trim(placeName); var id := MakePlaceId(lat, lon);
        && (name == "" ==> r == Failed(Storage))
        && (name != "" && id in Ids(old(items)) ==> r == Failed(Duplicate))
        && (name != "" && id !in Ids(old(items)) && |old(items)| >= FavoritesLimit ==> r == Failed(Limit))
        && (name != "" && id !in Ids(old(items)) && |old(items)| < FavoritesLimit ==>
              r == if saveThrows then Failed(Storage) else Succeeded(FavoritePlace(id, name, lat, lon, now)))
      ensures r.Failed? ==> items == old(items) && writes == old(writes)
      ensures r.Succeeded? ==> items == old(items) + [r.item] && writes == old(writes) + [items]
      ensures UniqueIds(old(items)) ==> UniqueIds(items)
    {
      var name := JsText.Trim(placeName);
      if name == "" {
        return Failed(Storage);
      }
      var id := MakePlaceId(lat, lon);
      var ids := Ids(items);
      if id in ids {
        return Failed(Duplicate);
      }
      if |items| >= FavoritesLimit {
        return Failed(Limit);
      }
      var item := FavoritePlace(id, name, lat, lon, now);
      var next := items + [item];
      var saved := Save(next, saveThrows);
      if !saved {
        return Failed(Storage);
      }
      AppendFreshUnique(items, item);
      items := next;
      return Succeeded(item);
    }

    /** `remove(id)`: drops every entry with that id and writes the rest. */
    method Remove(id: string)
      requires Valid()
      modifies this
      ensures Valid()
      ensures items == Without(old(items), id)
      ensures writes == old(writes) + [items]
      ensures id !in Ids(old(items)) ==> items == old(items)
      ensures UniqueIds(old(items)) ==> UniqueIds(items)
    {
      var next := Without(items, id);
      if id !in Ids(items) {
        WithoutAbsent(items, id);
      }
      if UniqueIds(items) {
        WithoutUnique(items, id);
      }
      var _ := Save(next, false);
      items := next;
    }

    /** `rename(id, nextPlaceName)`: a blank name is `empty`, an unknown id is
        `storage`; otherwise every entry with that id gets the trimmed name. */
    method Rename(id: string, nextPlaceName: string, saveThrows: bool) returns (r: Outcome)
      requires Valid()
      modifies this
      ensures Valid()
      ensures var name := JsText.Trim(nextPlaceName);
        && (name == "" ==> r == Failed(Empty))
        && (name != "" && id !in Ids(old(items)) ==> r == Failed(Storage))
        && (name != "" && id in Ids(old(items)) ==>
              r == if saveThrows then Failed(Storage) else Succeeded(Find(old(items), id).value.(placeName := name)))
      ensures r.Failed? ==> items == old(items) && writes == old(writes)
      ensures r.Succeeded? ==>
        && |items| == |old(items)|
        && (forall i :: 0 <= i < |items| ==>
              items[i] == if old(items)[i].id == id then old(items)[i].(placeName := r.item.placeName) else old(items)[i])
        && writes == old(writes) + [items]
      ensures Ids(items) == Ids(old(items))
      ensures UniqueIds(old(items)) ==> UniqueIds(items)
    {
      var name := JsText.Trim(nextPlaceName);
      if name == "" {
        return Failed(Empty);
      }
      var existing := Find(items, id);
      if existing.None? {
        return Failed(Storage);
      }
      var next := Renamed(items, id, name);
      RenamedKeepsIds(items, id, name);
      var saved := Save(next, saveThrows);
      if !saved {
        return Failed(Storage);
      }
      items := next;
      return Succeeded(existing.value.(placeName := name));
    }
  }
}
