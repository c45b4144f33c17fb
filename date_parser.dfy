/** The short date input of the schedule editor (utils/date_parser.py): "15", "15 12" or
    "15.12.2025", completed from the base year and month of the edited schedule. */
module DateParser {
  import opened Strings
  import opened Dates

  /** The parsed date of `text`, or None where `parse_date_input` returns None.
      The base "YYYY-MM" string is given as its year and month numbers. */
  function ParseDate(text: string, baseYear: int, baseMonth: int): (r: Option<Date>)
    ensures r.Some? ==> ValidDate(r.value)
    ensures Strip(text) == [] ==> r.None?
    ensures r.Some? && '.' !in Strip(text) ==> r.value.year == baseYear
    ensures r.Some? && '.' !in Strip(text) && ' ' !in Strip(text) ==> r.value.month == baseMonth
    ensures '.' !in Strip(text) && ' ' !in Strip(text) && !IsDigits(Strip(text)) ==> r.None?
    ensures r.Some? && '.' in Strip(text) ==> DottedReading(Strip(text), r.value)
    ensures r.Some? && '.' !in Strip(text) && ' ' in Strip(text) ==>
              TwoNumbers(Words(Strip(text)))
              && r.value == Date(baseYear, DigitsToNat(Words(Strip(text))[1]), DigitsToNat(Words(Strip(text))[0]))
    ensures r.Some? && '.' !in Strip(text) && ' ' !in Strip(text) ==>
              IsDigits(Strip(text)) && r.value == Date(baseYear, baseMonth, DigitsToNat(Strip(text)))
  {
    var t := Strip(text);
    if '.' in t then
      var p := SplitOn(t, '.');
      if |p| == 3 && DayField(p[0]) && MonthField(p[1]) && YearField(p[2]) then
        SplitThree(t, '.');
        assert DottedPieces(t, p[0], p[1], p[2]);
        MakeDate(FieldValue(p[2]), FieldValue(p[1]), FieldValue(p[0]))
      else None
    else if ' ' in t && TwoNumbers(Words(t)) then
      var w := Words(t);
      MakeDate(baseYear, DigitsToNat(w[1]), DigitsToNat(w[0]))
    else if IsDigits(t) && 1 <= DigitsToNat(t) <= 31 then
      MakeDate(baseYear, baseMonth, DigitsToNat(t))
    else None
  }

  /** `strptime(t, '%d.%m.%Y')` reads t as these three fields. */
  predicate DottedPieces(t: string, dd: string, mm: string, yy: string) {
    t == dd + "." + mm + "." + yy && DayField(dd) && MonthField(mm) && YearField(yy)
  }

  /** t is a DD.MM.YYYY text naming d. */
  ghost predicate DottedReading(t: string, d: Date) {
    exists dd, mm, yy :: DottedPieces(t, dd, mm, yy) && d == Date(FieldValue(yy), FieldValue(mm), FieldValue(dd))
  }

  /** A text that splits into three pieces is those pieces joined by the separator. */
  lemma SplitThree(t: string, sep: char)
    requires |SplitOn(t, sep)| == 3
    ensures var p := SplitOn(t, sep); t == p[0] + [sep] + p[1] + [sep] + p[2]
  {
    var p := SplitOn(t, sep);
    assert p == [p[0], p[1], p[2]];
    SplitJoin(t, sep);
    JoinThree(p[0], p[1], p[2], sep);
  }

  lemma JoinThree(a: string, b: string, c: string, sep: char)
    ensures Join([a, b, c], sep) == a + [sep] + b + [sep] + c
  {
    assert [a, b, c][1..] == [b, c] && [b, c][1..] == [c];
    assert Join([b, c], sep) == b + [sep] + c;
    assert a + [sep] + (b + [sep] + c) == a + [sep] + b + [sep] + c;
  }

  predicate TwoNumbers(w: seq<string>) {
    |w| == 2 && IsDigits(w[0]) && IsDigits(w[1])
  }

  /** `parse_date_input`: the date as 'YYYY-MM-DD', or None. */
  function ParseDateInput(text: string, baseYear: int, baseMonth: int): (r: Option<string>)
    ensures r.Some? ==> |r.value| == 10 && ParseIsoDate(r.value).Some?
                        && FormatDate(ParseIsoDate(r.value).value) == r.value
    ensures r.Some? <==> ParseDate(text, baseYear, baseMonth).Some?
  {
    match ParseDate(text, baseYear, baseMonth)
    case None => None
    case Some(d) =>
      ParseFormatDate(d);
      Some(FormatDate(d))
  }

  lemma DigitsNoSeparators(s: string)
    requires IsDigits(s)
    ensures '.' !in s && ' ' !in s && '-' !in s
    ensures !IsSpace(s[0]) && !IsSpace(s[|s| - 1])
    ensures forall i :: 0 <= i < |s| ==> !IsSpace(s[i])
  {
    assert forall i :: 0 <= i < |s| ==> IsDigit(s[i]);
  }

  /** For a day that exists in the base month, typing just that day gives that date. */
  lemma BareDayRoundTrip(year: int, month: int, day: nat)
    requires ValidDate(Date(year, month, day))
    ensures ParseDate(NatToString(day), year, month) == Some(Date(year, month, day))
  {
    var t := NatToString(day);
    DigitsNoSeparators(t);
    StripOfTrimmed(t);
    NatToStringRoundTrip(day);
  }

  /** A bare number outside 1..31 is never a date. */
  lemma BareDayOutOfRange(text: string, baseYear: int, baseMonth: int)
    requires IsDigits(Strip(text)) && !(1 <= DigitsToNat(Strip(text)) <= 31)
    ensures ParseDate(text, baseYear, baseMonth).None?
  {
    DigitsNoSeparators(Strip(text));
  }

  /** "DD.MM.YYYY" with zero-padded fields gives exactly that date, whatever the base. */
  lemma DottedRoundTrip(d: Date, baseYear: int, baseMonth: int)
    requires ValidDate(d)
    ensures ParseDate(Pad2(d.day) + "." + Pad2(d.month) + "." + Pad4(d.year), baseYear, baseMonth) == Some(d)
  {
    var dd, mm, yy := Pad2(d.day), Pad2(d.month), Pad4(d.year);
    var t := dd + "." + mm + "." + yy;
    DigitsNoSeparators(dd);
    DigitsNoSeparators(mm);
    DigitsNoSeparators(yy);
    assert t[0] == dd[0] && t[|t| - 1] == yy[3];
    StripOfTrimmed(t);
    assert t[2] == '.';
    SplitOnThree(dd, mm, yy, '.');
    var p := SplitOn(t, '.');
    assert p == [dd, mm, yy];
    assert DayField(p[0]) && MonthField(p[1]) && YearField(p[2]);
  }

  /** "D M" gives day D of month M in the base year, when that date exists. */
  lemma DayMonthRoundTrip(baseYear: int, baseMonth: int, month: nat, day: nat)
    requires ValidDate(Date(baseYear, month, day))
    ensures ParseDate(NatToString(day) + " " + NatToString(month), baseYear, baseMonth)
            == Some(Date(baseYear, month, day))
  {
    var a, b := NatToString(day), NatToString(month);
    var t := a + " " + b;
    DigitsNoSeparators(a);
    DigitsNoSeparators(b);
    assert t[0] == a[0] && t[|t| - 1] == b[|b| - 1];
    StripOfTrimmed(t);
    assert t[|a|] == ' ';
    assert '.' !in t;
    WordsOfTwo(a, b);
    NatToStringRoundTrip(day);
    NatToStringRoundTrip(month);
  }

  /** Two numbers naming a day that does not exist in the base year are rejected. */
  lemma DayMonthInvalid(baseYear: int, baseMonth: int, month: nat, day: nat)
    requires !ValidDate(Date(baseYear, month, day))
    ensures ParseDate(NatToString(day) + " " + NatToString(month), baseYear, baseMonth).None?
  {
    var a, b := NatToString(day), NatToString(month);
    var t := a + " " + b;
    DigitsNoSeparators(a);
    DigitsNoSeparators(b);
    assert t[0] == a[0] && t[|t| - 1] == b[|b| - 1];
    StripOfTrimmed(t);
    assert t[|a|] == ' ';
    assert '.' !in t;
    WordsOfTwo(a, b);
    NatToStringRoundTrip(day);
    NatToStringRoundTrip(month);
  }

  lemma FieldHasNoDot(t: string)
    requires IsDigits(t) || (|t| == 2 && t[0] == ' ' && '1' <= t[1] <= '9')
    ensures '.' !in t
  {
    if IsDigits(t) { DigitsNoSeparators(t); }
  }

  /** Every DD.MM.YYYY text (after stripping) of an existing date gives that date. */
  lemma DottedAccepted(text: string, dd: string, mm: string, yy: string, baseYear: int, baseMonth: int)
    requires DottedPieces(Strip(text), dd, mm, yy)
    requires ValidDate(Date(FieldValue(yy), FieldValue(mm), FieldValue(dd)))
    ensures ParseDate(text, baseYear, baseMonth) == Some(Date(FieldValue(yy), FieldValue(mm), FieldValue(dd)))
  {
    var t := Strip(text);
    FieldHasNoDot(dd);
    FieldHasNoDot(mm);
    FieldHasNoDot(yy);
    assert t[|dd|] == '.';
    SplitOnThree(dd, mm, yy, '.');
  }

  /** Two numbers separated by whitespace, naming an existing day of the base year, give it. */
  lemma DayMonthAccepted(text: string, baseYear: int, baseMonth: int)
    requires '.' !in Strip(text) && ' ' in Strip(text) && TwoNumbers(Words(Strip(text)))
    requires ValidDate(Date(baseYear, DigitsToNat(Words(Strip(text))[1]), DigitsToNat(Words(Strip(text))[0])))
    ensures ParseDate(text, baseYear, baseMonth)
            == Some(Date(baseYear, DigitsToNat(Words(Strip(text))[1]), DigitsToNat(Words(Strip(text))[0])))
  {
  }

  /** Any other text with a space and no '.' is refused. */
  lemma SpacedRejected(text: string, baseYear: int, baseMonth: int)
    requires '.' !in Strip(text) && ' ' in Strip(text) && !TwoNumbers(Words(Strip(text)))
    ensures ParseDate(text, baseYear, baseMonth).None?
  {
    assert !IsDigits(Strip(text));
  }

  /** A bare number 1..31 naming a day of the base month gives that day. */
  lemma BareDayAccepted(text: string, baseYear: int, baseMonth: int)
    requires IsDigits(Strip(text)) && ValidDate(Date(baseYear, baseMonth, DigitsToNat(Strip(text))))
    ensures ParseDate(text, baseYear, baseMonth) == Some(Date(baseYear, baseMonth, DigitsToNat(Strip(text))))
  {
    DigitsNoSeparators(Strip(text));
  }
}
