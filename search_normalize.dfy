/** Search-text normalisation (src/features/place-search/model/normalize.ts). */
module SearchNormalize {
  import JsText

  /** What the character class `[\s-]` matches. */
  predicate IsSpaceOrDash(c: char) {
    JsText.IsSpace(c) || c == '-'
  }

  /** `replace(/[\s-]+/g, '')`: every white-space or `-` character deleted. */
  function StripSpaceDash(s: string): (r: string)
    ensures forall i :: 0 <= i < |r| ==> !IsSpaceOrDash(r[i])
    ensures forall c :: c in r ==> c in s
    ensures |r| <= |s|
  {
    if s == [] then []
    else (if IsSpaceOrDash(s[0]) then [] else [s[0]]) + StripSpaceDash(s[1..])
  }

  /** One character is deleted when it is white space or `-`, and kept otherwise. */
  lemma StripSpaceDashChar(c: char)
    ensures StripSpaceDash([c]) == if IsSpaceOrDash(c) then [] else [c]
  {
    assert [c][1..] == [];
  }

  /** The deletion works character by character: stripping a concatenation is
      concatenating the stripped parts. With `StripSpaceDashChar` this fixes
      the result of every input: the kept characters, in their order. */
  lemma {:induction false} StripSpaceDashAppend(a: string, b: string)
    ensures StripSpaceDash(a + b) == StripSpaceDash(a) + StripSpaceDash(b)
  {
    if a != [] {
      assert (a + b)[0] == a[0] && (a + b)[1..] == a[1..] + b;
      StripSpaceDashAppend(a[1..], b);
    } else {
      assert a + b == b;
    }
  }

  /** `normalizeForSearch`: lower-case, then delete white space and `-`. */
  function NormalizeForSearch(s: string): (r: string)
    ensures forall i :: 0 <= i < |r| ==> !JsText.IsSpace(r[i]) && r[i] != '-'
  {
    StripSpaceDash(JsText.ToLower(s))
  }

  /** `labelFromDistrictRaw`: every `-` becomes a space, nothing else changes. */
  function LabelFromDistrictRaw(raw: string): (r: string)
    ensures |r| == |raw|
    ensures forall i :: 0 <= i < |raw| ==> r[i] == if raw[i] == '-' then ' ' else raw[i]
    ensures '-' !in r
  {
    if raw == [] then [] else [if raw[0] == '-' then ' ' else raw[0]] + LabelFromDistrictRaw(raw[1..])
  }

  lemma {:induction false} StripUnchanged(s: string)
    requires forall i :: 0 <= i < |s| ==> !IsSpaceOrDash(s[i])
    ensures StripSpaceDash(s) == s
  {
    if s != [] {
      StripUnchanged(s[1..]);
      assert s == [s[0]] + s[1..];
    }
  }

  lemma {:induction false} LowerUnchanged(s: string)
    requires forall i :: 0 <= i < |s| ==> JsText.LowerChar(s[i]) == s[i]
    ensures JsText.ToLower(s) == s
  {
  }

  /** Normalising twice is the same as normalising once. */
  lemma NormalizeIdempotent(s: string)
    ensures NormalizeForSearch(NormalizeForSearch(s)) == NormalizeForSearch(s)
  {
    var n := NormalizeForSearch(s);
    var lower := JsText.ToLower(s);
    forall i | 0 <= i < |n| ensures JsText.LowerChar(n[i]) == n[i] {
      assert n[i] in lower;
      var j :| 0 <= j < |lower| && lower[j] == n[i];
    }
    LowerUnchanged(n);
    StripUnchanged(n);
  }

  /** Searching a label is the same as searching its raw directory entry. */
  lemma {:induction false} NormalizeLabel(raw: string)
    ensures NormalizeForSearch(LabelFromDistrictRaw(raw)) == NormalizeForSearch(raw)
  {
    if raw != [] {
      NormalizeLabel(raw[1..]);
      var labelText := LabelFromDistrictRaw(raw);
      assert labelText[1..] == LabelFromDistrictRaw(raw[1..]);
      assert JsText.ToLower(labelText)[1..] == JsText.ToLower(labelText[1..]);
      assert JsText.ToLower(raw)[1..] == JsText.ToLower(raw[1..]);
    }
  }
}
