/** District autocomplete (src/features/place-search/model/use-district-autocomplete.ts):
    filter the directory by the normalised query, rank by a weighted score and
    keep the first `limit`. */
module DistrictAutocomplete {
  import opened Wrappers
  import JsText
  import StableSort
  import opened SearchNormalize

  const DefaultLimit: int := 10

  datatype Suggestion = Suggestion(raw: string, labelText: string)

  datatype Hit = Hit(raw: string, labelText: string, score: int)

  /** `idx * 10 + label.length`, where `idx` is the first position of the
      query in the normalised label. */
  function Score(labelText: string, nq: string): int {
    JsText.IndexOf(NormalizeForSearch(labelText), nq) * 10 + |labelText|
  }

  /** The normalised labelText of `raw` contains the normalised query. */
  predicate Matches(raw: string, nq: string) {
    JsText.IndexOf(NormalizeForSearch(LabelFromDistrictRaw(raw)), nq) != -1
  }

  /** The hits the loop pushes, in directory order. */
  function Hits(items: seq<string>, nq: string): (r: seq<Hit>)
    ensures forall h :: h in r ==> h.raw in items && Matches(h.raw, nq)
                                    && h.labelText == LabelFromDistrictRaw(h.raw) && h.score == Score(h.labelText, nq)
  {
    if items == [] then []
    else
      var raw := items[|items| - 1];
      var labelText := LabelFromDistrictRaw(raw);
      Hits(items[..|items| - 1], nq)
        + (if Matches(raw, nq) then [Hit(raw, labelText, Score(labelText, nq))] else [])
  }

  /** Every matching directory entry yields its hit: together with the
      contract of `Hits`, the hits are exactly the matching entries. */
  lemma {:induction false} HitsComplete(items: seq<string>, nq: string)
    ensures forall h :: h in Hits(items, nq) ==>
      h.raw in items && Matches(h.raw, nq) && h.labelText == LabelFromDistrictRaw(h.raw) && h.score == Score(h.labelText, nq)
    ensures forall i :: 0 <= i < |items| && Matches(items[i], nq) ==>
      var labelText := LabelFromDistrictRaw(items[i]);
      Hit(items[i], labelText, Score(labelText, nq)) in Hits(items, nq)
  {
    if items != [] {
      var n := |items| - 1;
      var pre := items[..n];
      HitsComplete(pre, nq);
      forall i | 0 <= i < |items| && Matches(items[i], nq)
        ensures var labelText := LabelFromDistrictRaw(items[i]);
          Hit(items[i], labelText, Score(labelText, nq)) in Hits(items, nq)
      {
        if i < n {
          assert items[i] == pre[i];
        }
      }
    }
  }

  /** One more directory entry adds its hit, if it matches, at the end. */
  lemma HitsSnoc(items: seq<string>, i: nat, nq: string)
    requires i < |items|
    ensures var labelText := LabelFromDistrictRaw(items[i]);
      Hits(items[..i + 1], nq)
        == Hits(items[..i], nq) + (if Matches(items[i], nq) then [Hit(items[i], labelText, Score(labelText, nq))] else [])
  {
    assert items[..i + 1][..i] == items[..i];
  }

  /** The comparator `(a, b) => a.score - b.score`, as an order. */
  predicate ByScore(a: Hit, b: Hit) {
    a.score <= b.score
  }

  function ToSuggestions(hits: seq<Hit>): (r: seq<Suggestion>)
    ensures |r| == |hits|
    ensures forall k :: 0 <= k < |r| ==> r[k] == Suggestion(hits[k].raw, hits[k].labelText)
  {
    if hits == [] then [] else [Suggestion(hits[0].raw, hits[0].labelText)] + ToSuggestions(hits[1..])
  }

  /** The hits in ranked order, before the cut to `limit`. */
  function Ranked(items: seq<string>, nq: string): seq<Hit> {
    StableSort.Sort(Hits(items, nq), ByScore)
  }

  /** `limit = 10`: the default of the hook's parameter. */
  function LimitOf(limit: Option<int>): int {
    if limit.Some? then limit.value else DefaultLimit
  }

  /** What the memo returns for `items`, `query` and `limit` (`None` for an
      omitted limit, which defaults to 10). */
  function Suggest(items: seq<string>, query: string, limit: Option<int>): (r: seq<Suggestion>)
    ensures |JsText.Trim(query)| < 2 ==> r == []
    ensures NormalizeForSearch(JsText.Trim(query)) == "" ==> r == []
    ensures limit.None? ==> |r| <= DefaultLimit
    ensures limit.Some? && 0 <= limit.value ==> |r| <= limit.value
  {
    var q := JsText.Trim(query);
    if |q| < 2 then []
    else
      var nq := NormalizeForSearch(q);
      if nq == "" then []
      else ToSuggestions(JsText.Take(Ranked(items, nq), LimitOf(limit)))
  }

  /** The memo body: the loop that collects hits, the sort and the cut. */
  method Autocomplete(items: seq<string>, query: string, limit: Option<int>) returns (r: seq<Suggestion>)
    ensures r == Suggest(items, query, limit)
  {
    var lim := LimitOf(limit);
    var q := JsText.Trim(query);
    if |q| < 2 {
      return [];
    }
    var nq := NormalizeForSearch(q);
    if nq == "" {
      return [];
    }
    var hits: seq<Hit> := [];
    for i := 0 to |items|
      invariant hits == Hits(items[..i], nq)
    {
      var raw := items[i];
      HitsSnoc(items, i, nq);
      var labelText := LabelFromDistrictRaw(raw);
      var idx := JsText.IndexOf(NormalizeForSearch(labelText), nq);
      if idx == -1 {
        continue;
      }
      var score := idx * 10 + |labelText|;
      assert score == Score(labelText, nq);
      hits := hits + [Hit(raw, labelText, score)];
    }
    assert items[..|items|] == items;
    hits := StableSort.Sort(hits, ByScore);
    SuggestCut(items, query, limit);
    r := ToSuggestions(JsText.Take(hits, lim));
  }

  lemma ByScoreIsTotalPreorder()
    ensures StableSort.TotalPreorder(ByScore)
  {
  }

  /** The ranked hits are the hits, reordered by score. */
  lemma RankedHits(items: seq<string>, nq: string)
    ensures multiset(Ranked(items, nq)) == multiset(Hits(items, nq))
    ensures StableSort.SortedBy(Ranked(items, nq), ByScore)
    ensures forall h :: h in Ranked(items, nq) ==> h in Hits(items, nq)
  {
    ByScoreIsTotalPreorder();
    StableSort.SortSorted(Hits(items, nq), ByScore);
    StableSort.SortPermutes(Hits(items, nq), ByScore);
    forall h | h in Ranked(items, nq) ensures h in Hits(items, nq) {
      assert h in multiset(Ranked(items, nq));
    }
  }

  /** The first `n` ranked hits: each is a matching entry with its label and
      score, in non-decreasing score order. */
  lemma KeptHits(items: seq<string>, nq: string, n: nat)
    requires n <= |Ranked(items, nq)|
    ensures var kept := Ranked(items, nq)[..n];
      && (forall k :: 0 <= k < n ==>
            kept[k].raw in items && Matches(kept[k].raw, nq)
            && kept[k].labelText == LabelFromDistrictRaw(kept[k].raw) && kept[k].score == Score(kept[k].labelText, nq))
      && (forall k, l :: 0 <= k < l < n ==> kept[k].score <= kept[l].score)
  {
    var ranked := Ranked(items, nq);
    RankedHits(items, nq);
    forall k | 0 <= k < n
      ensures ranked[k] in Hits(items, nq)
    {
      assert ranked[k] in ranked;
    }
    forall k, l | 0 <= k < l < n ensures ranked[k].score <= ranked[l].score {
      assert ByScore(ranked[k], ranked[l]);
    }
  }

  /** `Suggest` past its two early returns: the first `LimitOf(limit)` ranked
      hits, as suggestions. */
  lemma SuggestCut(items: seq<string>, query: string, limit: Option<int>)
    requires |JsText.Trim(query)| >= 2 && NormalizeForSearch(JsText.Trim(query)) != ""
    ensures var ranked := Ranked(items, NormalizeForSearch(JsText.Trim(query)));
      Suggest(items, query, limit) == ToSuggestions(ranked[..JsText.SliceEnd(|ranked|, LimitOf(limit))])
  {
  }

  /** Every suggestion is the label of a directory entry that matches the
      query, and the suggestions come in non-decreasing score order. */
  lemma SuggestionsMatchAndAreRanked(items: seq<string>, query: string, limit: Option<int>)
    ensures var r := Suggest(items, query, limit); var nq := NormalizeForSearch(JsText.Trim(query));
      && (forall k :: 0 <= k < |r| ==>
            r[k].raw in items && r[k].labelText == LabelFromDistrictRaw(r[k].raw)
            && JsText.IndexOf(NormalizeForSearch(r[k].labelText), nq) != -1)
      && (forall k, l :: 0 <= k < l < |r| ==> Score(r[k].labelText, nq) <= Score(r[l].labelText, nq))
  {
    var nq := NormalizeForSearch(JsText.Trim(query));
    if |JsText.Trim(query)| >= 2 && nq != "" {
      var ranked := Ranked(items, nq);
      var n := JsText.SliceEnd(|ranked|, LimitOf(limit));
      SuggestCut(items, query, limit);
      KeptHits(items, nq, n);
    }
  }

  /** Cutting a ranked list only drops hits that score no better than every
      kept one. */
  lemma CutKeepsBest(ranked: seq<Hit>, n: nat)
    requires StableSort.SortedBy(ranked, ByScore) && n <= |ranked|
    ensures forall h :: h in multiset(ranked) - multiset(ranked[..n]) ==>
              forall k :: 0 <= k < n ==> ranked[k].score <= h.score
  {
    assert ranked == ranked[..n] + ranked[n..];
    assert multiset(ranked) == multiset(ranked[..n]) + multiset(ranked[n..]);
    forall h | h in multiset(ranked) - multiset(ranked[..n])
      ensures forall k :: 0 <= k < n ==> ranked[k].score <= h.score
    {
      assert h in multiset(ranked[n..]);
      var j :| 0 <= j < |ranked[n..]| && ranked[n..][j] == h;
      assert ranked[n + j] == h;
    }
  }

  /** The first `n` ranked hits: all of the hits when nothing is cut, and
      otherwise the dropped hits score no better than every kept one. */
  lemma RankedCut(items: seq<string>, nq: string, n: nat)
    requires n <= |Ranked(items, nq)|
    ensures var kept := Ranked(items, nq)[..n];
      && (n == |Hits(items, nq)| ==> multiset(kept) == multiset(Hits(items, nq)))
      && (forall h :: h in multiset(Hits(items, nq)) - multiset(kept) ==>
            forall k :: 0 <= k < n ==> kept[k].score <= h.score)
  {
    var ranked := Ranked(items, nq);
    RankedHits(items, nq);
    CutKeepsBest(ranked, n);
    StableSort.MultisetPrefix(ranked, n);
  }

  /** With a large enough limit every hit is kept, and a cut only drops hits
      that score no better than every kept one. */
  lemma SuggestionsComplete(items: seq<string>, query: string, limit: Option<int>)
    requires |JsText.Trim(query)| >= 2 && NormalizeForSearch(JsText.Trim(query)) != ""
    ensures var nq := NormalizeForSearch(JsText.Trim(query));
      var kept := JsText.Take(Ranked(items, nq), LimitOf(limit));
      && Suggest(items, query, limit) == ToSuggestions(kept)
      && (|Hits(items, nq)| <= LimitOf(limit) ==> multiset(kept) == multiset(Hits(items, nq)))
      && (forall h :: h in multiset(Hits(items, nq)) - multiset(kept) ==>
            forall k :: 0 <= k < |kept| ==> kept[k].score <= h.score)
  {
    var nq := NormalizeForSearch(JsText.Trim(query));
    var ranked := Ranked(items, nq);
    var n := JsText.SliceEnd(|ranked|, LimitOf(limit));
    SuggestCut(items, query, limit);
    assert |ranked| == |Hits(items, nq)|;
    RankedCut(items, nq, n);
  }

  /** When the limit is at least the number of hits, every directory entry
      that matches the query is suggested, with its label. */
  lemma AllMatchesSuggested(items: seq<string>, query: string, limit: Option<int>)
    requires |JsText.Trim(query)| >= 2 && NormalizeForSearch(JsText.Trim(query)) != ""
    requires |Hits(items, NormalizeForSearch(JsText.Trim(query)))| <= LimitOf(limit)
    ensures forall i :: 0 <= i < |items| && Matches(items[i], NormalizeForSearch(JsText.Trim(query))) ==>
      Suggestion(items[i], LabelFromDistrictRaw(items[i])) in Suggest(items, query, limit)
  {
    var nq := NormalizeForSearch(JsText.Trim(query));
    var kept := JsText.Take(Ranked(items, nq), LimitOf(limit));
    SuggestionsComplete(items, query, limit);
    HitsComplete(items, nq);
    var r := Suggest(items, query, limit);
    forall i | 0 <= i < |items| && Matches(items[i], nq)
      ensures Suggestion(items[i], LabelFromDistrictRaw(items[i])) in r
    {
      var labelText := LabelFromDistrictRaw(items[i]);
      var h := Hit(items[i], labelText, Score(labelText, nq));
      assert h in multiset(kept);
      var k :| 0 <= k < |kept| && kept[k] == h;
      assert r[k] == Suggestion(items[i], labelText);
    }
  }
}
