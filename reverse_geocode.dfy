/** Place-name composition from a reverse-geocoding response
    (src/features/detect-location/api/reverse-geocode.ts), after the response
    has arrived. */
module ReverseGeocode {
  import opened Wrappers
  import opened JsonValue
  import JsText

  /** The parts `compactJoin` keeps: each string part trimmed, blank ones
      dropped; a part that is not a string counts as blank. */
  function NonBlank(parts: seq<Option<string>>): seq<string> {
    if parts == [] then [] else KeptPart(parts[0]) + NonBlank(parts[1..])
  }

  /** What is kept of one part: its trimmed text, unless that is empty. */
  function KeptPart(p: Option<string>): seq<string> {
    var t := if p.Some? then JsText.Trim(p.value) else "";
    if t != "" then [t] else []
  }

  /** Every kept part is non-empty and has no white space at either end. */
  lemma {:induction false} NonBlankTrimmed(parts: seq<Option<string>>)
    ensures forall k :: 0 <= k < |NonBlank(parts)| ==> NonBlank(parts)[k] != "" && JsText.IsTrimmed(NonBlank(parts)[k])
  {
    if parts != [] {
      NonBlankTrimmed(parts[1..]);
    }
  }

  /** The part is `undefined`, not a string, or white space only. */
  predicate IsBlankPart(p: Option<string>) {
    p.None? || JsText.IsBlank(p.value)
  }

  /** One part is dropped when it is blank, and otherwise kept as its `trim()`.
      With `NonBlankAppend` this fixes what is kept of any list of parts. */
  lemma NonBlankOne(p: Option<string>)
    ensures NonBlank([p]) == if IsBlankPart(p) then [] else [JsText.Trim(p.value)]
  {
    assert [p][1..] == [];
  }

  lemma {:induction false} NonBlankEmpty(parts: seq<Option<string>>)
    ensures NonBlank(parts) == [] <==> forall i :: 0 <= i < |parts| ==> IsBlankPart(parts[i])
  {
    if parts != [] {
      NonBlankEmpty(parts[1..]);
      assert forall i :: 1 <= i < |parts| ==> parts[i] == parts[1..][i - 1];
    }
  }

  /** `Array.prototype.join`: the strings in order, `sep` between neighbours. */
  function Join(xs: seq<string>, sep: string): string {
    if xs == [] then "" else if |xs| == 1 then xs[0] else xs[0] + sep + Join(xs[1..], sep)
  }

  /** `compactJoin(parts, sep)`. */
  function CompactJoin(parts: seq<Option<string>>, sep: string): string {
    Join(NonBlank(parts), sep)
  }

  lemma {:induction false} JoinOfNonEmpty(xs: seq<string>, sep: string)
    requires forall k :: 0 <= k < |xs| ==> xs[k] != "" && JsText.IsTrimmed(xs[k])
    ensures Join(xs, sep) == "" <==> xs == []
    ensures xs != [] ==> |Join(xs, sep)| >= |xs[0]| && Join(xs, sep)[0] == xs[0][0]
    ensures xs != [] ==>
      |Join(xs, sep)| >= |xs[|xs| - 1]| && Join(xs, sep)[|Join(xs, sep)| - 1] == xs[|xs| - 1][|xs[|xs| - 1]| - 1]
  {
    if |xs| > 1 {
      JoinOfNonEmpty(xs[1..], sep);
    }
  }

  lemma {:induction false} JoinAppend(xs: seq<string>, ys: seq<string>, sep: string)
    requires xs != [] && ys != []
    ensures Join(xs + ys, sep) == Join(xs, sep) + sep + Join(ys, sep)
  {
    if |xs| > 1 {
      assert (xs + ys)[1..] == xs[1..] + ys;
      JoinAppend(xs[1..], ys, sep);
    }
  }

  /** `compactJoin` yields `""` exactly when no part is a non-blank string, and
      its result never starts or ends with white space. */
  lemma CompactJoinShape(parts: seq<Option<string>>, sep: string)
    ensures CompactJoin(parts, sep) == "" <==> forall i :: 0 <= i < |parts| ==> IsBlankPart(parts[i])
    ensures JsText.IsTrimmed(CompactJoin(parts, sep))
  {
    NonBlankTrimmed(parts);
    JoinOfNonEmpty(NonBlank(parts), sep);
    NonBlankEmpty(parts);
  }

  /** The head and tail of a concatenation whose left side is not empty. */
  lemma AppendSplit<T>(a: seq<T>, b: seq<T>)
    requires a != []
    ensures (a + b)[0] == a[0] && (a + b)[1..] == a[1..] + b
  {
  }

  lemma AppendAssoc<T>(a: seq<T>, b: seq<T>, c: seq<T>)
    ensures a + (b + c) == (a + b) + c
  {
  }

  /** Keeping the non-blank parts of a concatenation is concatenating what is
      kept of each. */
  lemma {:induction false} NonBlankAppend(ps: seq<Option<string>>, qs: seq<Option<string>>)
    ensures NonBlank(ps + qs) == NonBlank(ps) + NonBlank(qs)
  {
    if ps == [] {
      assert ps + qs == qs;
    } else {
      AppendSplit(ps, qs);
      NonBlankAppend(ps[1..], qs);
      AppendAssoc(KeptPart(ps[0]), NonBlank(ps[1..]), NonBlank(qs));
    }
  }

  lemma NonBlankSingle(x: string)
    requires JsText.IsTrimmed(x)
    ensures NonBlank([Some(x)]) == if x != "" then [x] else []
  {
    JsText.TrimTrimmed(x);
    assert [Some(x)][1..] == [];
  }

  lemma NonBlankPair(x: string, y: string)
    requires JsText.IsTrimmed(x) && JsText.IsTrimmed(y)
    ensures NonBlank([Some(x), Some(y)]) == (if x != "" then [x] else []) + (if y != "" then [y] else [])
  {
    NonBlankSingle(x);
    NonBlankSingle(y);
    NonBlankAppend([Some(x)], [Some(y)]);
    PairDisplay(x, y);
  }

  lemma PairDisplay(x: string, y: string)
    ensures NonBlank([Some(x), Some(y)]) == NonBlank([Some(x)] + [Some(y)])
  {
    assert [Some(x)] + [Some(y)] == [Some(x), Some(y)];
  }

  lemma JoinTrimmed(xs: seq<string>, sep: string)
    requires forall k :: 0 <= k < |xs| ==> xs[k] != "" && JsText.IsTrimmed(xs[k])
    ensures Join(xs, sep) == "" <==> xs == []
    ensures JsText.IsTrimmed(Join(xs, sep))
  {
    JoinOfNonEmpty(xs, sep);
  }

  lemma JoinPair(x: string, y: string, sep: string)
    ensures Join([x], sep) == x
    ensures Join([x, y], sep) == x + sep + y
  {
    assert [x, y][1..] == [y];
  }

  /** Joining two joins is one join over all the parts, in order. */
  lemma CompactJoinNested(ps: seq<Option<string>>, qs: seq<Option<string>>, sep: string)
    ensures CompactJoin([Some(CompactJoin(ps, sep)), Some(CompactJoin(qs, sep))], sep) == CompactJoin(ps + qs, sep)
  {
    var xs, ys := NonBlank(ps), NonBlank(qs);
    var x, y := Join(xs, sep), Join(ys, sep);
    NonBlankTrimmed(ps);
    NonBlankTrimmed(qs);
    JoinTrimmed(xs, sep);
    JoinTrimmed(ys, sep);
    NonBlankPair(x, y);
    NonBlankAppend(ps, qs);
    assert NonBlank(ps + qs) == xs + ys;
    JoinPair(x, y, sep);
    JoinPair(y, x, sep);
    if xs != [] && ys != [] {
      JoinAppend(xs, ys, sep);
    } else if xs != [] {
      assert xs + ys == xs;
    } else if ys != [] {
      assert xs + ys == ys;
    } else {
      assert xs + ys == [];
    }
  }

  // ---------------------------------------------------------------------------
  // The name built from `address`

  /** An address field as `compactJoin` reads it: its string value, if any. */
  function Field(a: Json, key: string): Option<string> {
    AsString(Get(a, key))
  }

  function Fields(a: Json, keys: seq<string>): (r: seq<Option<string>>)
    ensures |r| == |keys| && forall i :: 0 <= i < |keys| ==> r[i] == Field(a, keys[i])
  {
    seq(|keys|, i requires 0 <= i < |keys| => Field(a, keys[i]))
  }

  const AreaKeys: seq<string> := ["state", "region", "county", "city", "borough", "suburb", "neighbourhood"]

  const RoadKeys: seq<string> := ["road", "house_number"]

  /** `compactJoin([area, road], ' ')` with the area and road joins inside it. */
  function ComposedName(a: Json): string {
    var area := CompactJoin(Fields(a, AreaKeys), " ");
    var road := CompactJoin(Fields(a, RoadKeys), " ");
    CompactJoin([Some(area), Some(road)], " ")
  }

  /** The composed name is the nine address fields, trimmed, blank ones
      dropped, joined by single spaces in the order state, region, county,
      city, borough, suburb, neighbourhood, road, house number. */
  lemma ComposedNameFlat(a: Json)
    ensures ComposedName(a) == CompactJoin(Fields(a, AreaKeys + RoadKeys), " ")
  {
    CompactJoinNested(Fields(a, AreaKeys), Fields(a, RoadKeys), " ");
    FieldsAppend(a, AreaKeys, RoadKeys);
  }

  lemma FieldsAppend(a: Json, ks: seq<string>, ls: seq<string>)
    ensures Fields(a, ks + ls) == Fields(a, ks) + Fields(a, ls)
  {
    var l, r := Fields(a, ks + ls), Fields(a, ks) + Fields(a, ls);
    forall i | 0 <= i < |l| ensures l[i] == r[i] {
      if i < |ks| {
        assert (ks + ls)[i] == ks[i];
      } else {
        assert (ks + ls)[i] == ls[i - |ks|];
      }
    }
  }

  /** How `reverseGeocodeToPlaceName` settles: resolved with a name or with
      `undefined`, or rejected (a body that is not JSON, or a `null` body
      whose `address` cannot be read). */
  datatype Lookup = Resolved(name: Option<string>) | Rejected

  /** `reverseGeocodeToPlaceName` after `fetch`. */
  function ReverseGeocodeName(res: HttpResponse): (r: Lookup)
    ensures !res.ok ==> r == Resolved(None)
    ensures r == Rejected <==> res.ok && (res.body.None? || res.body.value.JNull?)
    ensures r.Resolved? && r.name.Some? ==> r.name.value != "" && JsText.IsTrimmed(r.name.value)
  {
    if !res.ok then Resolved(None)
    else if res.body.None? || res.body.value.JNull? then Rejected
    else
      var data := res.body.value;
      var a := Get(data, "address");
      if Truthy(a) && ComposedName(a.value) != "" then
        CompactJoinShape([Some(CompactJoin(Fields(a.value, AreaKeys), " ")),
                          Some(CompactJoin(Fields(a.value, RoadKeys), " "))], " ");
        Resolved(Some(ComposedName(a.value)))
      else
        var display := AsString(Get(data, "display_name"));
        if display.Some? && JsText.Trim(display.value) != "" then Resolved(Some(JsText.Trim(display.value)))
        else Resolved(None)
  }

  /** A non-empty composed name wins; otherwise a non-blank `display_name` is
      used trimmed; otherwise the name is `undefined`. */
  lemma NamePreference(res: HttpResponse)
    requires res.ok && res.body.Some? && !res.body.value.JNull?
    ensures var data := res.body.value; var a := Get(data, "address");
      var display := AsString(Get(data, "display_name"));
      && (Truthy(a) && ComposedName(a.value) != "" ==>
            ReverseGeocodeName(res) == Resolved(Some(CompactJoin(Fields(a.value, AreaKeys + RoadKeys), " "))))
      && (!(Truthy(a) && ComposedName(a.value) != "") && display.Some? && !JsText.IsBlank(display.value) ==>
            ReverseGeocodeName(res) == Resolved(Some(JsText.Trim(display.value))))
      && (!(Truthy(a) && ComposedName(a.value) != "") && (display.None? || JsText.IsBlank(display.value)) ==>
            ReverseGeocodeName(res) == Resolved(None))
  {
    var data := res.body.value;
    var a := Get(data, "address");
    var display := AsString(Get(data, "display_name"));
    if Truthy(a) && ComposedName(a.value) != "" {
      ComposedNameFlat(a.value);
      assert ReverseGeocodeName(res) == Resolved(Some(ComposedName(a.value)));
    } else if display.Some? && !JsText.IsBlank(display.value) {
      assert JsText.Trim(display.value) != "";
    } else {
      assert display.None? || JsText.Trim(display.value) == "";
    }
  }
}
