/** The durable favorites record (src/features/favorites/model/storage.ts):
    place ids derived from coordinates, the tolerant loader and the capped save. */
module FavoritesStorage {
  import opened Wrappers
  import opened JsonValue
  import JsText
  import StableSort

  /** The most favorites that are ever kept or written. */
  const FavoritesLimit: nat := 6

  datatype FavoritePlace = FavoritePlace(id: string, placeName: string, lat: real, lon: real, createdAt: real)

  // ---------------------------------------------------------------------------
  // Place ids: `${lat.toFixed(5)},${lon.toFixed(5)}`

  /** What `toFixed(5)` keeps of a number: its sign and its value in units of
      1e-5, rounded half up on the magnitude. */
  datatype FixedKey = FixedKey(negative: bool, units: nat)

  function FixedKeyOf(x: real): FixedKey {
    var m := if x < 0.0 then -x else x;
    FixedKey(x < 0.0, (m * 100000.0 + 0.5).Floor)
  }

  function DigitChar(d: nat): char
    requires d < 10
  {
    (48 + d) as char
  }

  function DigitValue(c: char): int {
    c as int - 48
  }

  /** The decimal digits of `n` with no leading zero (`"0"` for zero). */
  function Digits(n: nat): (r: string)
    ensures r != [] && r[0] != '-'
    ensures forall i :: 0 <= i < |r| ==> '0' <= r[i] <= '9'
  {
    if n < 10 then [DigitChar(n)] else Digits(n / 10) + [DigitChar(n % 10)]
  }

  /** The last `width` decimal digits of `n`, zero-padded. */
  function PaddedDigits(n: nat, width: nat): (r: string)
    ensures |r| == width
    ensures forall i :: 0 <= i < |r| ==> '0' <= r[i] <= '9'
  {
    if width == 0 then [] else PaddedDigits(n / 10, width - 1) + [DigitChar(n % 10)]
  }

  /** The text of a number as `toFixed(5)` writes it, from its key. */
  function FixedText(k: FixedKey): (r: string)
    ensures ',' !in r
  {
    (if k.negative then "-" else "") + Digits(k.units / 100000) + "." + PaddedDigits(k.units % 100000, 5)
  }

  function ToFixed5(x: real): string {
    FixedText(FixedKeyOf(x))
  }

  function MakePlaceId(lat: real, lon: real): string {
    ToFixed5(lat) + "," + ToFixed5(lon)
  }

  /** The value of a run of decimal digits. */
  function ParseDigits(s: string): int {
    if s == [] then 0 else ParseDigits(s[..|s| - 1]) * 10 + DigitValue(s[|s| - 1])
  }

  /** Reads back the units from the unsigned part `digits.ddddd`. */
  function ParseUnits(body: string): Option<nat> {
    if |body| < 7 then None
    else
      var units := ParseDigits(body[..|body| - 6]) * 100000 + ParseDigits(body[|body| - 5..]);
      if units < 0 then None else Some(units)
  }

  /** Reads back the key from a `toFixed(5)` text. */
  function ParseFixed(t: string): Option<FixedKey> {
    var negative := t != [] && t[0] == '-';
    match ParseUnits(if negative then t[1..] else t)
    case Some(units) => Some(FixedKey(negative, units))
    case None => None
  }

  function CommaIndex(s: string): (r: nat)
    ensures r <= |s|
    ensures r < |s| ==> s[r] == ','
    ensures forall i :: 0 <= i < r ==> s[i] != ','
  {
    if s == [] || s[0] == ',' then 0 else 1 + CommaIndex(s[1..])
  }

  /** Splits a place id at its first comma and reads back both keys. */
  function ParsePlaceId(id: string): Option<(FixedKey, FixedKey)> {
    var i := CommaIndex(id);
    if i == |id| then None
    else match (ParseFixed(id[..i]), ParseFixed(id[i + 1..]))
      case (Some(a), Some(b)) => Some((a, b))
      case _ => None
  }

  lemma {:induction false} ParseDigitsOfDigits(n: nat)
    ensures ParseDigits(Digits(n)) == n
  {
    if n >= 10 {
      var d := Digits(n / 10) + [DigitChar(n % 10)];
      assert d[..|d| - 1] == Digits(n / 10);
      ParseDigitsOfDigits(n / 10);
    }
  }

  lemma {:induction false} ParseDigitsOfPadded(n: nat, width: nat)
    requires n < Pow10(width)
    ensures ParseDigits(PaddedDigits(n, width)) == n
  {
    if width > 0 {
      var d := PaddedDigits(n / 10, width - 1) + [DigitChar(n % 10)];
      assert d[..|d| - 1] == PaddedDigits(n / 10, width - 1);
      ParseDigitsOfPadded(n / 10, width - 1);
    }
  }

  function Pow10(n: nat): (r: nat)
    ensures r > 0
  {
    if n == 0 then 1 else 10 * Pow10(n - 1)
  }

  lemma ParseUnitsOfParts(d: string, p: string)
    requires d != [] && |p| == 5
    requires ParseDigits(d) * 100000 + ParseDigits(p) >= 0
    ensures ParseUnits(d + "." + p) == Some(ParseDigits(d) * 100000 + ParseDigits(p))
  {
    var body := d + "." + p;
    assert |body| == |d| + 6;
    assert body[..|body| - 6] == d;
    assert body[|body| - 5..] == p;
  }

  /** An optional minus sign in front of an unsigned text gives the sign. */
  lemma ParseFixedOfParts(negative: bool, body: string, units: nat)
    requires body != [] && body[0] != '-' && ParseUnits(body) == Some(units)
    ensures ParseFixed((if negative then "-" else "") + body) == Some(FixedKey(negative, units))
  {
    var t := (if negative then "-" else "") + body;
    if negative {
      assert t[0] == '-' && t[1..] == body;
    } else {
      assert t == body;
    }
  }

  lemma ParseFixedText(k: FixedKey)
    ensures ParseFixed(FixedText(k)) == Some(k)
  {
    var q, m := k.units / 100000, k.units % 100000;
    var d, p := Digits(q), PaddedDigits(m, 5);
    ParseDigitsOfDigits(q);
    assert Pow10(5) == 100000;
    ParseDigitsOfPadded(m, 5);
    assert q * 100000 + m == k.units;
    ParseUnitsOfParts(d, p);
    assert FixedText(k) == (if k.negative then "-" else "") + (d + "." + p);
    ParseFixedOfParts(k.negative, d + "." + p, k.units);
  }

  lemma CommaIndexAfter(a: string, b: string)
    requires ',' !in a
    ensures CommaIndex(a + "," + b) == |a|
  {
    var s := a + "," + b;
    assert s[|a|] == ',';
  }

  /** A place id determines the rounded coordinates it was made from. */
  lemma ParsePlaceIdRoundTrip(lat: real, lon: real)
    ensures ParsePlaceId(MakePlaceId(lat, lon)) == Some((FixedKeyOf(lat), FixedKeyOf(lon)))
  {
    var a, b := ToFixed5(lat), ToFixed5(lon);
    var id := a + "," + b;
    CommaIndexAfter(a, b);
    assert id[..|a|] == a;
    assert id[|a| + 1..] == b;
    ParseFixedText(FixedKeyOf(lat));
    ParseFixedText(FixedKeyOf(lon));
  }

  /** Two places get the same id exactly when both coordinates agree to five
      decimals (with the same sign), so such places collide as duplicates. */
  lemma SamePlaceId(lat1: real, lon1: real, lat2: real, lon2: real)
    ensures MakePlaceId(lat1, lon1) == MakePlaceId(lat2, lon2)
        <==> FixedKeyOf(lat1) == FixedKeyOf(lat2) && FixedKeyOf(lon1) == FixedKeyOf(lon2)
  {
    ParsePlaceIdRoundTrip(lat1, lon1);
    ParsePlaceIdRoundTrip(lat2, lon2);
  }

  // ---------------------------------------------------------------------------
  // Loading: drop malformed entries one by one, order by `createdAt`, keep six

  /** `!item || typeof item !== 'object'` lets only arrays and objects through. */
  predicate IsObject(v: Json) {
    v.JArr? || v.JObj?
  }

  /** One parsed entry, kept only when `id` and `placeName` are strings and
      `lat`, `lon` and `createdAt` are numbers. */
  function DecodeEntry(v: Json): (r: Option<FavoritePlace>)
    ensures r.Some? <==> v.JObj? && AsString(Get(v, "id")).Some? && AsString(Get(v, "placeName")).Some?
                         && AsNumber(Get(v, "lat")).Some? && AsNumber(Get(v, "lon")).Some?
                         && AsNumber(Get(v, "createdAt")).Some?
    ensures r.Some? ==>
      && Get(v, "id") == Some(JStr(r.value.id)) && Get(v, "placeName") == Some(JStr(r.value.placeName))
      && Get(v, "lat") == Some(JNum(r.value.lat)) && Get(v, "lon") == Some(JNum(r.value.lon))
      && Get(v, "createdAt") == Some(JNum(r.value.createdAt))
  {
    if !IsObject(v) then None
    else
      var id, name := AsString(Get(v, "id")), AsString(Get(v, "placeName"));
      var lat, lon, at := AsNumber(Get(v, "lat")), AsNumber(Get(v, "lon")), AsNumber(Get(v, "createdAt"));
      if id.Some? && name.Some? && lat.Some? && lon.Some? && at.Some? then
        Some(FavoritePlace(id.value, name.value, lat.value, lon.value, at.value))
      else None
  }

  /** The entries the loader's loop keeps, in their input order. */
  function Kept(entries: seq<Json>): seq<FavoritePlace> {
    if entries == [] then []
    else
      var last := entries[|entries| - 1];
      Kept(entries[..|entries| - 1]) + (if DecodeEntry(last).Some? then [DecodeEntry(last).value] else [])
  }

  /** The comparator `(a, b) => a.createdAt - b.createdAt`, as an order. */
  predicate ByCreatedAt(a: FavoritePlace, b: FavoritePlace) {
    a.createdAt <= b.createdAt
  }

  lemma ByCreatedAtIsTotalPreorder()
    ensures StableSort.TotalPreorder(ByCreatedAt)
  {
  }

  /** What `loadFavorites` returns for the stored text `raw` (`None` when
      nothing is stored); `parse` is `JSON.parse` behind `safeParse`, `None`
      when it throws. */
  function Load(raw: Option<string>, parse: string -> Option<Json>): (r: seq<FavoritePlace>)
    ensures raw.None? || raw == Some("") ==> r == []
    ensures raw.Some? && (parse(raw.value).None? || !parse(raw.value).value.JArr?) ==> r == []
  {
    if raw.None? || raw.value == "" then []
    else match parse(raw.value)
      case Some(JArr(entries)) => JsText.Take(StableSort.Sort(Kept(entries), ByCreatedAt), FavoritesLimit)
      case _ => []
  }

  /** `loadFavorites`: the loop that keeps well-typed entries, then the sort
      and the cut to the limit. */
  method LoadFavorites(raw: Option<string>, parse: string -> Option<Json>) returns (out: seq<FavoritePlace>)
    ensures out == Load(raw, parse)
    ensures |out| <= FavoritesLimit
  {
    if raw.None? || raw.value == "" {
      return [];
    }
    var parsed := parse(raw.value);
    if parsed.None? || !parsed.value.JArr? {
      return [];
    }
    var entries := parsed.value.elems;
    out := [];
    for i := 0 to |entries|
      invariant out == Kept(entries[..i])
    {
      var item := entries[i];
      assert entries[..i + 1][..i] == entries[..i];
      if !IsObject(item) {
        continue;
      }
      var id, name := AsString(Get(item, "id")), AsString(Get(item, "placeName"));
      var lat, lon, at := AsNumber(Get(item, "lat")), AsNumber(Get(item, "lon")), AsNumber(Get(item, "createdAt"));
      if id.None? || name.None? || lat.None? || lon.None? || at.None? {
        continue;
      }
      out := out + [FavoritePlace(id.value, name.value, lat.value, lon.value, at.value)];
    }
    assert entries[..|entries|] == entries;
    out := StableSort.Sort(out, ByCreatedAt);
    out := JsText.Take(out, FavoritesLimit);
  }

  /** Kept entries are exactly the well-typed ones: each comes from some entry,
      and every entry that decodes is kept. */
  lemma {:induction false} KeptExactly(entries: seq<Json>)
    ensures forall p :: p in Kept(entries) ==> exists j :: 0 <= j < |entries| && DecodeEntry(entries[j]) == Some(p)
    ensures forall j :: 0 <= j < |entries| && DecodeEntry(entries[j]).Some? ==> DecodeEntry(entries[j]).value in Kept(entries)
  {
    if entries != [] {
      var init := entries[..|entries| - 1];
      KeptExactly(init);
      forall p | p in Kept(entries)
        ensures exists j :: 0 <= j < |entries| && DecodeEntry(entries[j]) == Some(p)
      {
        if p in Kept(init) {
          var j :| 0 <= j < |init| && DecodeEntry(init[j]) == Some(p);
          assert entries[j] == init[j];
        }
      }
      forall j | 0 <= j < |entries| && DecodeEntry(entries[j]).Some?
        ensures DecodeEntry(entries[j]).value in Kept(entries)
      {
        if j < |init| {
          assert entries[j] == init[j];
        }
      }
    }
  }

  /** What a stored array loads to: at most six favorites, ordered by
      `createdAt`, each one a well-typed stored entry; with ties in stored
      order; and, when no more than six entries are well typed, all of them. */
  lemma LoadFromArray(raw: string, parse: string -> Option<Json>, entries: seq<Json>, x: FavoritePlace)
    requires raw != "" && parse(raw) == Some(JArr(entries))
    ensures var r := Load(Some(raw), parse);
      && |r| <= FavoritesLimit
      && StableSort.SortedBy(r, ByCreatedAt)
      && (forall p :: p in r ==> exists j :: 0 <= j < |entries| && DecodeEntry(entries[j]) == Some(p))
      && StableSort.Class(r, ByCreatedAt, x) <= StableSort.Class(Kept(entries), ByCreatedAt, x)
      && (|Kept(entries)| <= FavoritesLimit ==> multiset(r) == multiset(Kept(entries)))
  {
    var k := Kept(entries);
    var r := Load(Some(raw), parse);
    assert r == StableSort.Sort(k, ByCreatedAt)[..JsText.SliceEnd(|k|, FavoritesLimit)];
    ByCreatedAtIsTotalPreorder();
    StableSort.SortedCut(k, JsText.SliceEnd(|k|, FavoritesLimit), ByCreatedAt);
    StableSort.SortedCutStable(k, JsText.SliceEnd(|k|, FavoritesLimit), ByCreatedAt, x);
    KeptExactly(entries);
    forall p | p in r
      ensures exists j :: 0 <= j < |entries| && DecodeEntry(entries[j]) == Some(p)
    {
      assert p in multiset(r);
    }
  }

  // ---------------------------------------------------------------------------
  // Saving: write the first six items

  /** The stored form of one favorite, as `JSON.stringify` writes it. */
  function EncodeEntry(p: FavoritePlace): (v: Json)
    ensures DecodeEntry(v) == Some(p)
  {
    JObj(map["id" := JStr(p.id), "placeName" := JStr(p.placeName), "lat" := JNum(p.lat),
             "lon" := JNum(p.lon), "createdAt" := JNum(p.createdAt)])
  }

  /** The list `saveFavorites` writes: the first `FavoritesLimit` items, in order. */
  function Saved(items: seq<FavoritePlace>): (r: seq<FavoritePlace>)
    ensures |r| == if |items| < FavoritesLimit then |items| else FavoritesLimit
    ensures r <= items
  {
    JsText.Take(items, FavoritesLimit)
  }

  /** The JSON array `saveFavorites` stores for `items`. */
  function SavedJson(items: seq<FavoritePlace>): Json {
    var s := Saved(items);
    JArr(seq(|s|, i requires 0 <= i < |s| => EncodeEntry(s[i])))
  }

  lemma {:induction false} KeptEncoded(ps: seq<FavoritePlace>)
    ensures Kept(seq(|ps|, i requires 0 <= i < |ps| => EncodeEntry(ps[i]))) == ps
  {
    var es := seq(|ps|, i requires 0 <= i < |ps| => EncodeEntry(ps[i]));
    if ps != [] {
      var init := ps[..|ps| - 1];
      assert es[..|es| - 1] == seq(|init|, i requires 0 <= i < |init| => EncodeEntry(init[i]));
      KeptEncoded(init);
      assert ps == init + [ps[|ps| - 1]];
    }
  }

  /** Saving a list ordered by `createdAt` and loading what was written gives
      back its first six items unchanged, provided parsing the written text
      yields the array that was written. */
  lemma SaveLoadRoundTrip(items: seq<FavoritePlace>, raw: string, parse: string -> Option<Json>)
    requires StableSort.SortedBy(items, ByCreatedAt)
    requires raw != "" && parse(raw) == Some(SavedJson(items))
    ensures Load(Some(raw), parse) == Saved(items)
  {
    var s := Saved(items);
    KeptEncoded(s);
    assert StableSort.SortedBy(s, ByCreatedAt);
    StableSort.SortOfSorted(s, ByCreatedAt);
  }
}
