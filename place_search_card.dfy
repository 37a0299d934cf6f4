/** The search box handlers (src/features/place-search/ui/place-search-card.tsx):
    typing, the keyboard selection index, hovering, and the two halves of
    `selectSuggestion` around the forward-geocoding call. */
module PlaceSearchCard {
  import opened Wrappers
  import JsText
  import opened DistrictAutocomplete

  /** The `limit` the card passes to the autocomplete. */
  const ListLimit: int := 10

  const CountryPrefix: string := "대한민국 "
  const NotFoundMessage: string := "좌표를 찾지 못했습니다. 다른 키워드로 시도해 주세요."

  datatype Status = Idle | Geocoding | Errored

  datatype Key = ArrowDown | ArrowUp | Enter | Escape | OtherKey

  /** `SelectedPlace`, as handed to `onSelect`. */
  datatype SelectedPlace = SelectedPlace(placeName: string, lat: real, lon: real)

  /** A forward-geocoding hit. */
  datatype Point = Point(lat: real, lon: real)

  /** The suggestions rendered for `query` over the directory `items`. */
  function SuggestionsFor(items: seq<string>, query: string): (r: seq<Suggestion>)
    ensures |r| <= ListLimit
  {
    Suggest(items, query, Some(ListLimit))
  }

  /** `canShowList`. */
  function CanShowList(items: seq<string>, query: string): bool {
    |JsText.Trim(query)| >= 2 && |SuggestionsFor(items, query)| > 0
  }

  /** The length guard in `canShowList` is already implied by having
      suggestions: the list shows exactly when there is something in it. */
  lemma CanShowListIffSuggestions(items: seq<string>, query: string)
    ensures CanShowList(items, query) <==> |SuggestionsFor(items, query)| > 0
  {
    if |JsText.Trim(query)| < 2 {
      assert SuggestionsFor(items, query) == [];
    }
  }

  /** `activeIdx` after ArrowDown (`min(i + 1, len - 1)`) or ArrowUp
      (`max(i - 1, 0)`) on a list of `len` entries, from -1 or an index of
      it; other keys keep it. */
  function Step(key: Key, i: int, len: int): (r: int)
    requires 0 < len && -1 <= i < len
    ensures key == ArrowDown || key == ArrowUp ==> 0 <= r < len
    ensures key == ArrowDown && i + 1 < len ==> r == i + 1
    ensures key == ArrowUp && 0 < i && i - 1 < len ==> r == i - 1
    ensures key == ArrowDown && i + 1 >= len ==> r == len - 1
    ensures key == ArrowUp && i <= 0 ==> r == 0
    ensures key == Escape ==> r == -1
    ensures key == Enter || key == OtherKey ==> r == i
  {
    match key
    case ArrowDown => if i + 1 < len - 1 then i + 1 else len - 1
    case ArrowUp => if i - 1 > 0 then i - 1 else 0
    case Escape => -1
    case _ => i
  }

  class SearchCard {
    /** The directory entries (the loaded districts, or none). */
    const items: seq<string>
    var query: string
    /** The memoised autocomplete list for `query`. */
    var suggestions: seq<Suggestion>
    var activeIdx: int
    var status: Status
    var message: Option<string>
    /** Every place handed to `onSelect`, oldest first. */
    ghost var selected: seq<SelectedPlace>

    /** While the list has entries, `activeIdx` is -1 (nothing highlighted)
        or one of their indices. */
    ghost predicate Valid()
      reads this`activeIdx, this`suggestions
    {
      -1 <= activeIdx && (|suggestions| > 0 ==> activeIdx < |suggestions|)
    }

    /** The memo holds the autocomplete of the current query. Every handler
        that changes `query` recomputes it, and the others keep both. */
    ghost predicate Synced()
      reads this`query, this`suggestions
    {
      suggestions == SuggestionsFor(items, query)
    }

    constructor (items: seq<string>)
      ensures Valid() && Synced()
      ensures this.items == items && query == "" && suggestions == [] && activeIdx == -1
      ensures status == Idle && message.None? && selected == []
    {
      this.items := items;
      query := "";
      suggestions := [];
      activeIdx := -1;
      status := Idle;
      message := None;
      selected := [];
      assert |JsText.Trim("")| < 2;
    }

    /** `onChange`: the new text (and its suggestions), and a reset of status,
        message and highlight. */
    method Change(text: string)
      requires Valid()
      modifies this
      ensures Valid() && Synced()
      ensures query == text && status == Idle && message.None? && activeIdx == -1
      ensures selected == old(selected)
    {
      status := Idle;
      message := None;
      activeIdx := -1;
      Refresh(text);
    }

    /** `setQuery` and the `useMemo` that recomputes the list from it. */
    method Refresh(text: string)
      modifies this`query, this`suggestions
      ensures Synced() && query == text
    {
      query := text;
      suggestions := Autocomplete(items, text, Some(ListLimit));
    }

    /** `onMouseEnter` on the entry at `idx` of the rendered list. */
    method Hover(idx: int)
      requires Valid() && 0 <= idx < |suggestions|
      modifies this`activeIdx
      ensures Valid() && activeIdx == idx
    {
      activeIdx := idx;
    }

    /** The synchronous start of `selectSuggestion(label)`: geocoding, no
        message, nothing highlighted; returns the text sent to the geocoder. */
    method BeginSelect(labelText: string) returns (geocodeQuery: string)
      requires Valid()
      modifies this`status, this`message, this`activeIdx
      ensures Valid()
      ensures status == Geocoding && message.None? && activeIdx == -1
      ensures geocodeQuery == CountryPrefix + labelText
    {
      status := Geocoding;
      message := None;
      activeIdx := -1;
      geocodeQuery := CountryPrefix + labelText;
    }

    /** The rest of `selectSuggestion(label)` once the geocoder's lookup
        resolved: no point means the error message; a point is handed to
        `onSelect` with the label as its name, then the box goes idle and
        empties. A rejected lookup never reaches this step. */
    method FinishSelect(labelText: string, result: Option<Point>)
      requires Valid()
      modifies this
      ensures Valid()
      ensures result.Some? ==> Synced()
      ensures result.None? ==>
        && status == Errored && message == Some(NotFoundMessage)
        && query == old(query) && suggestions == old(suggestions)
        && activeIdx == old(activeIdx) && selected == old(selected)
      ensures result.Some? ==>
        && selected == old(selected) + [SelectedPlace(labelText, result.value.lat, result.value.lon)]
        && status == Idle && query == "" && suggestions == []
        && message == old(message) && activeIdx == old(activeIdx)
    {
      if result.None? {
        status := Errored;
        message := Some(NotFoundMessage);
        return;
      }
      selected := selected + [SelectedPlace(labelText, result.value.lat, result.value.lon)];
      status := Idle;
      query := "";
      suggestions := [];
      assert |JsText.Trim(query)| < 2;
    }

    /** `onKeyDown`: with no suggestions nothing happens; the arrows move the
        highlight, Escape clears it, and Enter starts selecting the
        highlighted entry (the first when none is), returning the text sent
        to the geocoder. */
    method KeyDown(key: Key) returns (geocodeQuery: Option<string>)
      requires Valid()
      modifies this`status, this`message, this`activeIdx
      ensures Valid()
      ensures |suggestions| == 0 ==>
        geocodeQuery.None? && activeIdx == old(activeIdx) && status == old(status) && message == old(message)
      ensures |suggestions| > 0 && key != Enter ==>
        && geocodeQuery.None? && status == old(status) && message == old(message)
        && activeIdx == Step(key, old(activeIdx), |suggestions|)
      ensures |suggestions| > 0 && key == Enter ==>
        var pick := suggestions[if old(activeIdx) < 0 then 0 else old(activeIdx)];
        && geocodeQuery == Some(CountryPrefix + pick.labelText)
        && status == Geocoding && message.None? && activeIdx == -1
    {
      if |suggestions| == 0 {
        return None;
      }
      geocodeQuery := None;
      if key == Enter {
        var idx := if activeIdx < 0 then 0 else activeIdx;
        if idx < |suggestions| {
          var q := BeginSelect(suggestions[idx].labelText);
          geocodeQuery := Some(q);
        }
      } else {
        activeIdx := Step(key, activeIdx, |suggestions|);
      }
    }
  }
}
