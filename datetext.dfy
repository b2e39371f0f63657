/**
 * The text form `DD-MM-YYYY` of a date: what `datetime.strptime(s, "%d-%m-%Y")`
 * accepts and what `strftime("%d-%m-%Y")` produces, with every field read as
 * exactly two, two and four ASCII digits.
 */
module DateText {
  import opened Digits
  import opened Calendar

  datatype Option<T> = None | Some(value: T)

  /** The shape `DD-MM-YYYY`: ten characters, digits with dashes at positions 2 and 5. */
  predicate WellShaped(s: string) {
    && |s| == 10 && s[2] == '-' && s[5] == '-'
    && IsDigit(s[0]) && IsDigit(s[1]) && IsDigit(s[3]) && IsDigit(s[4])
    && IsDigit(s[6]) && IsDigit(s[7]) && IsDigit(s[8]) && IsDigit(s[9])
  }

  /** Reads a date; `None` stands for the `ValueError` that `strptime` raises. */
  function ParseDate(s: string): (r: Option<Date>)
    ensures r.Some? ==> Valid(r.value)
  {
    if WellShaped(s) then
      var d := Date(Value(s[6..10]), Value(s[3..5]), Value(s[0..2]));
      if Valid(d) then Some(d) else None
    else None
  }

  /** Writes a supported date with zero-padded day, month and four-digit year. */
  function FormatDate(d: Date): (s: string)
    requires Valid(d)
    ensures WellShaped(s)
  {
    var s := Pad(d.day, 2) + "-" + Pad(d.month, 2) + "-" + Pad(d.year, 4);
    assert s[0..2] == Pad(d.day, 2) && s[3..5] == Pad(d.month, 2) && s[6..10] == Pad(d.year, 4);
    s
  }

  /** Formatting a date and reading it back gives the same date. */
  lemma ParseFormat(d: Date)
    requires Valid(d)
    ensures ParseDate(FormatDate(d)) == Some(d)
  {
    var s := FormatDate(d);
    assert s[0..2] == Pad(d.day, 2) && s[3..5] == Pad(d.month, 2) && s[6..10] == Pad(d.year, 4);
    ValueOfPad(d.day, 2);
    ValueOfPad(d.month, 2);
    ValueOfPad(d.year, 4);
  }

  /** A text that reads as a date is the formatted text of that date: each date has one spelling. */
  lemma FormatParse(s: string)
    requires ParseDate(s).Some?
    ensures FormatDate(ParseDate(s).value) == s
  {
    var d := ParseDate(s).value;
    PadOfValue(s[0..2]);
    PadOfValue(s[3..5]);
    PadOfValue(s[6..10]);
    assert s[0..2] == Pad(d.day, 2);
    assert s[3..5] == Pad(d.month, 2);
    assert s[6..10] == Pad(d.year, 4);
    assert s == s[0..2] + "-" + s[3..5] + "-" + s[6..10];
  }

  /** Two texts that read as the same date are the same text. */
  lemma ParseInjective(s1: string, s2: string)
    requires ParseDate(s1).Some? && ParseDate(s1) == ParseDate(s2)
    ensures s1 == s2
  {
    FormatParse(s1);
    FormatParse(s2);
  }

  /** The fields of a well-shaped text, digit by digit. */
  lemma FieldValues(s: string)
    requires WellShaped(s)
    ensures Value(s[0..2]) == DigitValue(s[0]) * 10 + DigitValue(s[1])
    ensures Value(s[3..5]) == DigitValue(s[3]) * 10 + DigitValue(s[4])
    ensures Value(s[6..10]) == ((DigitValue(s[6]) * 10 + DigitValue(s[7])) * 10 + DigitValue(s[8])) * 10 + DigitValue(s[9])
  {
    assert s[0..2] == [s[0]] + [s[1]];
    ValueSnoc([], s[0]);
    ValueSnoc([s[0]], s[1]);
    assert s[3..5] == [s[3]] + [s[4]];
    ValueSnoc([], s[3]);
    ValueSnoc([s[3]], s[4]);
    assert s[6..10] == [s[6]] + [s[7]] + [s[8]] + [s[9]];
    ValueSnoc([], s[6]);
    ValueSnoc([s[6]], s[7]);
    ValueSnoc([s[6]] + [s[7]], s[8]);
    ValueSnoc([s[6]] + [s[7]] + [s[8]], s[9]);
  }
}
