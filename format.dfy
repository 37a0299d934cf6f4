/** Display formatting (src/shared/lib/format.ts): the hour label of an ISO
    local date-time. */
module Format {
  import JsText

  /** `formatHourKstFromIsoDateTime`: the characters at indices 11 and 12
      (`slice(11, 13)`, clamped to the string) followed by `시`. */
  function FormatHourKst(iso: string): (r: string)
    ensures |r| >= 1 && r[|r| - 1] == '시'
    ensures |r| <= 3
    ensures |iso| <= 11 ==> r == "시"
    ensures |iso| >= 13 ==> r == [iso[11], iso[12], '시']
    ensures |iso| == 12 ==> r == [iso[11], '시']
  {
    JsText.Slice(iso, 11, 13) + "시"
  }

  predicate IsDigit(c: char) {
    '0' <= c <= '9'
  }

  /** The `YYYY-MM-DDTHH:MM` shape the series times have. */
  predicate IsIsoMinute(s: string) {
    && |s| == 16
    && IsDigit(s[0]) && IsDigit(s[1]) && IsDigit(s[2]) && IsDigit(s[3]) && s[4] == '-'
    && IsDigit(s[5]) && IsDigit(s[6]) && s[7] == '-'
    && IsDigit(s[8]) && IsDigit(s[9]) && s[10] == 'T'
    && IsDigit(s[11]) && IsDigit(s[12]) && s[13] == ':'
    && IsDigit(s[14]) && IsDigit(s[15])
  }

  /** On a `YYYY-MM-DDTHH:MM` time the label is the two hour digits and `시`. */
  lemma HourOfIsoMinute(iso: string)
    requires IsIsoMinute(iso)
    ensures var r := FormatHourKst(iso);
      |r| == 3 && IsDigit(r[0]) && IsDigit(r[1]) && r[..2] == iso[11..13]
  {
  }

  /** Two times get the same label exactly when they agree at indices 11 and
      12 (as far as each reaches): nothing else of the input is read. */
  lemma {:induction false} SameHourLabel(a: string, b: string)
    ensures FormatHourKst(a) == FormatHourKst(b) <==> JsText.Slice(a, 11, 13) == JsText.Slice(b, 11, 13)
  {
    var x, y := JsText.Slice(a, 11, 13), JsText.Slice(b, 11, 13);
    if x + "시" == y + "시" {
      assert |x| == |y|;
      assert x == (x + "시")[..|x|] == (y + "시")[..|y|] == y;
    }
  }
}
