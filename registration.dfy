/** Registration rules (handlers/registration.py): the list of enrollment years open for
    registration, the year and group keyboards with the callback data they carry, and the
    checks on a typed-in group name and full name. "Today" is a parameter. */
module Registration {
  import opened Strings
  import opened Sorting
  import opened Dates
  import opened CourseCalculator

  const ENGINEERING := "Инженерно-технический"
  const LAW := "Юридический"

  /** [a, a+1, ..., b-1] */
  function Interval(a: int, b: int): (r: seq<int>)
    ensures |r| == if b <= a then 0 else b - a
    ensures forall k :: 0 <= k < |r| ==> r[k] == a + k
    decreases b - a
  {
    if b <= a then [] else Interval(a, b - 1) + [b - 1]
  }

  function Max(a: int, b: int): int {
    if a < b then b else a
  }

  /** `get_dynamic_enrollment_years`: the years y of range(A-4, A+1), A the academic start
      year, with y >= 2020 and a current course of at most 5. All courses of that range are
      between 1 and 5, so the list is every year from max(2020, A-4) to A. */
  method EnrollmentYears(today: Date) returns (years: seq<int>)
    ensures var a := AcademicStart(today); years == Interval(Max(2020, a - 4), a + 1)
    ensures forall y :: y in years <==> 2020 <= y && AcademicStart(today) - 4 <= y <= AcademicStart(today)
    ensures forall y :: y in years ==> 1 <= CurrentCourse(y, today) <= 5
    ensures |years| <= 5
    ensures forall i, j :: 0 <= i < j < |years| ==> years[i] < years[j]
  {
    var a := AcademicStart(today);
    var lo := Max(2020, a - 4);
    years := [];
    for y := a - 4 to a + 1
      invariant years == Interval(lo, if y < lo then lo else y)
    {
      if y >= 2020 && CurrentCourse(y, today) <= 5 {
        years := years + [y];
      }
    }
    forall y ensures y in years <==> 2020 <= y && a - 4 <= y <= a {
      if 2020 <= y && a - 4 <= y <= a { assert years[y - lo] == y; }
    }
  }

  /** The list of EnrollmentYears as a value, for the checks that consult it. */
  function OpenYears(today: Date): seq<int> {
    var a := AcademicStart(today);
    Interval(Max(2020, a - 4), a + 1)
  }

  datatype Button = Button(text: string, data: string)

  /** The label of a year button: "🎓 Y (выпускник)" at course 5 and above, otherwise
      "📅 Y (N курс)". */
  function YearLabel(year: int, today: Date): (s: string)
    ensures s != []
    ensures s[0] == '🎓' <==> CurrentCourse(year, today) >= 5
    ensures s[0] == '📅' <==> CurrentCourse(year, today) < 5
  {
    var course := CurrentCourse(year, today);
    if course >= 5 then "🎓 " + IntToString(year) + " (выпускник)"
    else "📅 " + IntToString(year) + " (" + IntToString(course) + " курс)"
  }

  function YearButton(year: int, today: Date): Button {
    Button(YearLabel(year, today), "year_" + IntToString(year))
  }

  function YearButtons(years: seq<int>, today: Date): (bs: seq<Button>)
    ensures |bs| == |years| && forall i :: 0 <= i < |years| ==> bs[i] == YearButton(years[i], today)
  {
    seq(|years|, i requires 0 <= i < |years| => YearButton(years[i], today))
  }

  /** bs in rows of two; the last row holds one button when |bs| is odd. */
  function Pairs<T>(bs: seq<T>): (rows: seq<seq<T>>)
    ensures |rows| == (|bs| + 1) / 2
    ensures forall k :: 0 <= k < |rows| ==> rows[k] == bs[2 * k..if 2 * k + 2 <= |bs| then 2 * k + 2 else |bs|]
  {
    seq((|bs| + 1) / 2, k requires 0 <= k < (|bs| + 1) / 2 =>
      bs[2 * k..if 2 * k + 2 <= |bs| then 2 * k + 2 else |bs|])
  }

  /** The rows, read one after another, are the buttons in order; every row has two
      buttons except possibly the last, which has one. */
  lemma {:induction false} PairsFlatten<T>(bs: seq<T>)
    ensures Flatten(Pairs(bs)) == bs
    ensures forall k :: 0 <= k < |Pairs(bs)| ==> 1 <= |Pairs(bs)[k]| <= 2
    ensures forall k :: 0 <= k < |Pairs(bs)| - 1 ==> |Pairs(bs)[k]| == 2
    decreases |bs|
  {
    var rows := Pairs(bs);
    if bs != [] {
      var n := |rows|;
      var m := 2 * (n - 1);
      PairsFlatten(bs[..m]);
      PairsPrefix(bs, n - 1);
      assert rows[..n - 1] == rows[..|rows| - 1];
      assert rows[n - 1] == bs[m..];
      assert bs == bs[..m] + bs[m..];
    }
  }

  /** The first j rows are the rows of the first 2j buttons. */
  lemma PairsPrefix<T>(bs: seq<T>, j: nat)
    requires 2 * j <= |bs|
    ensures Pairs(bs[..2 * j]) == Pairs(bs)[..j]
  {
    var p, q := Pairs(bs[..2 * j]), Pairs(bs)[..j];
    assert |p| == j;
    forall k | 0 <= k < j ensures p[k] == q[k] {
      assert 2 * k + 2 <= |bs[..2 * j]| <= |bs|;
      assert p[k] == bs[..2 * j][2 * k..2 * k + 2];
      assert Pairs(bs)[k] == bs[2 * k..2 * k + 2];
      assert bs[..2 * j][2 * k..2 * k + 2] == bs[2 * k..2 * k + 2];
      assert q[k] == Pairs(bs)[k];
    }
  }

  lemma PairsStep<T>(bs: seq<T>, k: nat)
    requires 2 * k + 2 <= |bs|
    ensures Pairs(bs)[..k] + [bs[2 * k..2 * k + 2]] == Pairs(bs)[..k + 1]
  {
    assert Pairs(bs)[k] == bs[2 * k..2 * k + 2];
  }

  lemma PairsLast<T>(bs: seq<T>, k: nat)
    requires 2 * k == |bs| || 2 * k + 1 == |bs|
    ensures 2 * k == |bs| ==> Pairs(bs)[..k] == Pairs(bs)
    ensures 2 * k + 1 == |bs| ==> Pairs(bs)[..k] + [bs[2 * k..]] == Pairs(bs)
  {
    if 2 * k + 1 == |bs| {
      assert Pairs(bs)[k] == bs[2 * k..];
    }
  }

  /** `get_year_keyboard`. */
  method YearKeyboard(today: Date) returns (keyboard: seq<seq<Button>>)
    ensures keyboard == Pairs(YearButtons(OpenYears(today), today))
  {
    var years := EnrollmentYears(today);
    keyboard := YearRows(years, today);
  }

  /** The loop of `get_year_keyboard`: a button per year, collected into rows of two. */
  method YearRows(years: seq<int>, today: Date) returns (keyboard: seq<seq<Button>>)
    ensures keyboard == Pairs(YearButtons(years, today))
  {
    var button := (y: int) => YearButton(y, today);
    keyboard := RowsOf(years, button);
    assert Map(years, button) == YearButtons(years, today);
  }

  /** The row-building loop for any button function: append `button(x)` to the row and
      close the row when it holds two. */
  method RowsOf<T, U>(xs: seq<T>, button: T -> U) returns (keyboard: seq<seq<U>>)
    ensures keyboard == Pairs(Map(xs, button))
  {
    ghost var bs := Map(xs, button);
    keyboard := [];
    var row: seq<U> := [];
    for i := 0 to |xs|
      invariant 2 * |keyboard| + |row| == i && |row| < 2
      invariant keyboard == Pairs(bs)[..|keyboard|]
      invariant row == bs[2 * |keyboard|..i]
    {
      row := row + [button(xs[i])];
      assert row == bs[2 * |keyboard|..i + 1];
      if |row| == 2 {
        PairsStep(bs, |keyboard|);
        keyboard := keyboard + [row];
        row := [];
      }
    }
    PairsLast(bs, |keyboard|);
    if row != [] {
      keyboard := keyboard + [row];
    }
  }

  predicate DoubleUnderscoreAt(b: string, i: int) {
    0 <= i < |b| - 1 && b[i] == '_' && b[i + 1] == '_'
  }

  /** Decimal digits with single underscores between digits: what `int()` accepts after the sign. */
  predicate GroupedDigits(b: string) {
    |b| > 0 && IsDigit(b[0]) && IsDigit(b[|b| - 1])
    && (forall i :: 0 <= i < |b| ==> IsDigit(b[i]) || b[i] == '_')
    && (forall i :: 0 <= i < |b| ==> !DoubleUnderscoreAt(b, i))
  }

  /** The digits of grouped digits, the underscores dropped. */
  function DropUnderscores(b: string): (r: string)
    ensures forall i :: 0 <= i < |r| ==> IsDigit(r[i])
  {
    if b == [] then [] else (if IsDigit(b[0]) then [b[0]] else []) + DropUnderscores(b[1..])
  }

  lemma {:induction false} DropUnderscoresAppend(a: string, b: string)
    ensures DropUnderscores(a + b) == DropUnderscores(a) + DropUnderscores(b)
  {
    if a != [] {
      assert (a + b)[1..] == a[1..] + b;
      DropUnderscoresAppend(a[1..], b);
    } else {
      assert a + b == b;
    }
  }

  /** The value of grouped digits. */
  function Unsigned(b: string): Option<nat> {
    if GroupedDigits(b) then Some(DigitsToNat(DropUnderscores(b))) else None
  }

  /** The value of a stripped integer literal: an optional sign, then grouped digits. */
  function IntLiteral(t: string): Option<int> {
    if |t| > 0 && t[0] == '-' then
      match Unsigned(t[1..])
      case Some(n) => Some(-(n as int))
      case None => None
    else if |t| > 0 && t[0] == '+' then
      match Unsigned(t[1..])
      case Some(n) => Some(n as int)
      case None => None
    else
      match Unsigned(t)
      case Some(n) => Some(n as int)
      case None => None
  }

  /** `int(s)` on a str: surrounding whitespace is ignored, then a sign and grouped digits. */
  function ParseInt(s: string): (r: Option<int>)
    ensures forall n: int :: s == IntToString(n) ==> r == Some(n)
    ensures r.Some? ==> Strip(s) != [] && IsDigit(Strip(s)[|Strip(s)| - 1])
                        && forall i :: 0 <= i < |Strip(s)| ==> IsDigit(Strip(s)[i]) || Strip(s)[i] in "+-_"
  {
    IntLiteralRoundTrip(s);
    IntLiteral(Strip(s))
  }

  lemma {:induction false} DropNoUnderscores(d: string)
    requires forall i :: 0 <= i < |d| ==> IsDigit(d[i])
    ensures DropUnderscores(d) == d
  {
    if d != [] {
      DropNoUnderscores(d[1..]);
    }
  }

  lemma DigitsGrouped(d: string)
    requires IsDigits(d)
    ensures GroupedDigits(d) && DropUnderscores(d) == d
  {
    DropNoUnderscores(d);
    forall i | 0 <= i < |d| ensures !DoubleUnderscoreAt(d, i) {
      if 0 <= i < |d| - 1 { assert IsDigit(d[i]); }
    }
  }

  /** Plain digits, with or without a sign, read as their decimal value. */
  lemma LiteralOfDigits(d: string)
    requires IsDigits(d)
    ensures IntLiteral(d) == Some(DigitsToNat(d) as int)
    ensures IntLiteral("+" + d) == Some(DigitsToNat(d) as int)
    ensures IntLiteral("-" + d) == Some(-(DigitsToNat(d) as int))
  {
    DigitsGrouped(d);
    assert Unsigned(d) == Some(DigitsToNat(d));
    assert d[0] != '-' && d[0] != '+';
    assert ("+" + d)[1..] == d && ("-" + d)[1..] == d;
  }

  lemma IntLiteralRoundTrip(s: string)
    ensures forall n: int :: s == IntToString(n) ==> IntLiteral(Strip(s)) == Some(n)
  {
    forall n: int | s == IntToString(n) ensures IntLiteral(Strip(s)) == Some(n) {
      IntToStringChars(n);
      assert !IsSpace(s[0]) && !IsSpace(s[|s| - 1]);
      StripOfTrimmed(s);
      var m: nat := if n >= 0 then n else -n;
      NatToStringRoundTrip(m);
      LiteralOfDigits(NatToString(m));
    }
  }

  /** `int()` ignores the whitespace around its argument. */
  lemma ParseIntStrips(s: string)
    ensures ParseInt(s) == ParseInt(Strip(s))
  {
    StripIdempotent(s);
  }

  lemma ParseIntOfTrimmed(t: string)
    requires t != [] && !IsSpace(t[0]) && !IsSpace(t[|t| - 1])
    ensures ParseInt(t) == IntLiteral(t)
  {
    StripOfTrimmed(t);
  }

  /** A sign before plain digits is read as such. */
  lemma ParseIntSignedDigits(t: string)
    requires IsDigits(t)
    ensures ParseInt("+" + t) == Some(DigitsToNat(t) as int)
    ensures ParseInt("-" + t) == Some(-(DigitsToNat(t) as int))
  {
    var p, m := "+" + t, "-" + t;
    assert p[|p| - 1] == t[|t| - 1];
    ParseIntOfTrimmed(p);
    assert m[|m| - 1] == t[|t| - 1];
    ParseIntOfTrimmed(m);
    LiteralOfDigits(t);
  }

  /** A leading '+' is accepted, and "-0" is zero. */
  lemma ParseIntSigned(n: nat)
    ensures ParseInt("+" + NatToString(n)) == Some(n as int)
    ensures ParseInt("-" + NatToString(n)) == Some(-(n as int))
  {
    NatToStringRoundTrip(n);
    ParseIntSignedDigits(NatToString(n));
  }

  lemma GroupedPair(a: string, b: string)
    requires IsDigits(a) && IsDigits(b)
    ensures GroupedDigits(a + "_" + b)
  {
    var t := a + "_" + b;
    forall i | 0 <= i < |t| ensures IsDigit(t[i]) || t[i] == '_' {
      if i < |a| { assert t[i] == a[i]; } else if i > |a| { assert t[i] == b[i - |a| - 1]; }
    }
    forall i | 0 <= i < |t| ensures !DoubleUnderscoreAt(t, i) {
      if 0 <= i < |a| { assert t[i] == a[i]; } else if |a| <= i < |t| - 1 { assert t[i + 1] == b[i - |a|]; }
    }
  }

  lemma DropPair(a: string, b: string)
    requires IsDigits(a) && IsDigits(b)
    ensures DropUnderscores(a + "_" + b) == a + b
  {
    DigitsGrouped(a);
    DigitsGrouped(b);
    DropUnderscoresAppend(a + "_", b);
    DropUnderscoresAppend(a, "_");
    assert DropUnderscores("_") == [] by { assert !IsDigit('_'); }
  }

  /** One underscore between two runs of digits is allowed and ignored. */
  lemma ParseIntUnderscore(a: string, b: string)
    requires IsDigits(a) && IsDigits(b)
    ensures ParseInt(a + "_" + b) == Some(DigitsToNat(a + b) as int)
  {
    var t := a + "_" + b;
    assert t[0] == a[0] && t[|t| - 1] == b[|b| - 1];
    ParseIntOfTrimmed(t);
    GroupedPair(a, b);
    DropPair(a, b);
    assert Unsigned(t) == Some(DigitsToNat(a + b));
  }

  /** Two underscores in a row are refused. */
  lemma ParseIntDoubleUnderscore(a: string, b: string)
    requires IsDigits(a) && IsDigits(b)
    ensures ParseInt(a + "__" + b) == None
  {
    var t := a + "__" + b;
    assert t[0] == a[0] && t[|t| - 1] == b[|b| - 1];
    ParseIntOfTrimmed(t);
    assert DoubleUnderscoreAt(t, |a|);
  }

  datatype YearChoice = BadData | Unavailable | YearChosen(year: int)

  /** `choose_year`: the year from the callback data, accepted only if it is open now. */
  function ChooseYear(data: string, today: Date): (c: YearChoice)
    ensures c.YearChosen? ==> c.year in OpenYears(today)
  {
    match ParseInt(RemoveAll(data, "year_"))
    case None => BadData
    case Some(y) => if y in OpenYears(today) then YearChosen(y) else Unavailable
  }

  lemma RemoveYearPrefix(n: int)
    ensures RemoveAll("year_" + IntToString(n), "year_") == IntToString(n)
  {
    var s := "year_" + IntToString(n);
    assert StartsWith(s, "year_");
    assert s[5..] == IntToString(n);
    NoYearPrefixInNumber(IntToString(n));
  }

  lemma {:induction false} NoYearPrefixInNumber(t: string)
    requires forall i :: 0 <= i < |t| ==> t[i] == '-' || IsDigit(t[i])
    ensures RemoveAll(t, "year_") == t
    decreases |t|
  {
    if t != [] {
      assert !StartsWith(t, "year_") by {
        if |t| >= 5 { assert t[..5][0] == t[0]; }
      }
      NoYearPrefixInNumber(t[1..]);
      assert t == [t[0]] + t[1..];
    }
  }

  /** Every button of the year keyboard is accepted by `choose_year` with its own year. */
  lemma YearButtonAccepted(today: Date, year: int)
    requires year in OpenYears(today)
    ensures ChooseYear(YearButton(year, today).data, today) == YearChosen(year)
  {
    var t := IntToString(year);
    assert year >= 2020;
    assert forall i :: 0 <= i < |t| ==> IsDigit(t[i]);
    RemoveYearPrefix(year);
  }

  /** The group names of `get_group_keyboard`, row by row. */
  function GroupRows(faculty: string, year: int): (rows: seq<seq<string>>)
    ensures faculty == ENGINEERING && (year == 2021 || year == 2022) ==>
              rows == [["ИБ1", "ИБ2"], ["ИО3", "ИО4"]]
    ensures faculty == ENGINEERING && year != 2021 && year != 2022 ==>
              rows == [["ИБ3", "ИБ4"], ["ИО5", "ИО6"]]
    ensures faculty != ENGINEERING ==> rows == [["ЮО1", "ЮО2"]]
  {
    if faculty == ENGINEERING then
      if year in [2021, 2022] then [["ИБ1", "ИБ2"], ["ИО3", "ИО4"]]
      else [["ИБ3", "ИБ4"], ["ИО5", "ИО6"]]
    else [["ЮО1", "ЮО2"]]
  }

  function GroupButton(group: string, year: int): Button {
    Button(group + " (" + IntToString(year) + ")", "group_" + group + "_" + IntToString(year))
  }

  function CustomGroupButton(year: int): Button {
    Button("➕ Другая группа (ввести вручную)", "group_" + "custom" + "_" + IntToString(year))
  }

  /** `get_group_keyboard`: one button per group in the faculty's rows, then a row with the
      button for typing a group name in. */
  function GroupKeyboard(faculty: string, year: int): (kb: seq<seq<Button>>)
    ensures |kb| == |GroupRows(faculty, year)| + 1
    ensures kb[|kb| - 1] == [CustomGroupButton(year)]
    ensures forall r :: 0 <= r < |kb| - 1 ==>
              |kb[r]| == |GroupRows(faculty, year)[r]|
              && forall c :: 0 <= c < |kb[r]| ==> kb[r][c] == GroupButton(GroupRows(faculty, year)[r][c], year)
  {
    var rows := GroupRows(faculty, year);
    seq(|rows|, r requires 0 <= r < |rows| =>
      seq(|rows[r]|, c requires 0 <= c < |rows[r]| => GroupButton(rows[r][c], year)))
    + [[CustomGroupButton(year)]]
  }

  datatype GroupChoice = BadGroupData | CustomGroup(year: int) | PresetGroup(group: string, year: int)

  /** The callback-data parsing of `choose_group`: split on '_', 'custom' asks for a typed
      name, otherwise part 1 is the group and part 2 the year. */
  function ChooseGroup(data: string): GroupChoice {
    var parts := SplitOn(data, '_');
    if |parts| < 3 then BadGroupData
    else match ParseInt(parts[2])
      case None => BadGroupData
      case Some(y) => if parts[1] == "custom" then CustomGroup(y) else PresetGroup(parts[1], y)
  }

  lemma NumberHasNoUnderscore(n: int)
    ensures '_' !in IntToString(n)
  {
    IntToStringChars(n);
  }

  lemma GroupNamesPlain(faculty: string, year: int)
    ensures forall r, c :: 0 <= r < |GroupRows(faculty, year)| && 0 <= c < |GroupRows(faculty, year)[r]| ==>
              var g := GroupRows(faculty, year)[r][c]; g != [] && '_' !in g && g != "custom"
  {
  }

  lemma GroupDataRoundTrip(g: string, year: int)
    requires g != [] && '_' !in g
    ensures ChooseGroup("group_" + g + "_" + IntToString(year))
            == if g == "custom" then CustomGroup(year) else PresetGroup(g, year)
  {
    var t := IntToString(year);
    NumberHasNoUnderscore(year);
    assert "group_" + g + "_" + t == "group" + ['_'] + g + ['_'] + t;
    SplitOnThree("group", g, t, '_');
  }

  /** Every preset button of the group keyboard brings the user back exactly its group and
      year. */
  lemma GroupButtonsRoundTrip(faculty: string, year: int)
    ensures forall r, c :: 0 <= r < |GroupRows(faculty, year)| && 0 <= c < |GroupRows(faculty, year)[r]| ==>
              ChooseGroup(GroupButton(GroupRows(faculty, year)[r][c], year).data)
              == PresetGroup(GroupRows(faculty, year)[r][c], year)
  {
    var rows := GroupRows(faculty, year);
    GroupNamesPlain(faculty, year);
    forall r, c | 0 <= r < |rows| && 0 <= c < |rows[r]|
      ensures ChooseGroup(GroupButton(rows[r][c], year).data) == PresetGroup(rows[r][c], year)
    {
      GroupDataRoundTrip(rows[r][c], year);
    }
  }

  /** The last button of the group keyboard asks for a typed-in group of that year. */
  lemma CustomButtonRoundTrip(year: int)
    ensures ChooseGroup(CustomGroupButton(year).data) == CustomGroup(year)
  {
    GroupDataRoundTrip("custom", year);
  }

  /** `enter_custom_group`: the name stripped and upper-cased, accepted with 1..20 characters. */
  function CustomGroupName(text: string): (r: Option<string>)
    ensures r.Some? <==> 1 <= |Upper(Strip(text))| <= 20
    ensures r.Some? ==> r.value == Upper(Strip(text))
  {
    var g := Upper(Strip(text));
    if g == [] || |g| > 20 then None else Some(g)
  }

  lemma UpperCharIdempotent(c: char)
    ensures UpperChar(UpperChar(c)) == UpperChar(c)
    ensures IsSpace(UpperChar(c)) == IsSpace(c)
  {
  }

  /** An accepted group name is accepted again unchanged. */
  lemma CustomGroupNameIdempotent(text: string)
    requires CustomGroupName(text).Some?
    ensures CustomGroupName(CustomGroupName(text).value) == CustomGroupName(text)
  {
    var s := Strip(text);
    UpperKeepsTrimmed(s);
    UpperIdempotent(s);
  }

  lemma UpperIdempotent(s: string)
    ensures Upper(Upper(s)) == Upper(s)
  {
    var g := Upper(s);
    forall i | 0 <= i < |g| ensures Upper(g)[i] == g[i] {
      UpperCharIdempotent(s[i]);
    }
  }

  lemma UpperKeepsTrimmed(s: string)
    requires s != [] ==> !IsSpace(s[0]) && !IsSpace(s[|s| - 1])
    ensures Strip(Upper(s)) == Upper(s)
  {
    if s != [] {
      UpperCharIdempotent(s[0]);
      UpperCharIdempotent(s[|s| - 1]);
    }
    StripOfTrimmed(Upper(s));
  }

  /** `enter_fio` (and the editor's `enter_fio_manual`): the stripped full name, accepted
      with at least two words. */
  function FullName(text: string): (r: Option<string>)
    ensures r.Some? <==> |Words(Strip(text))| >= 2
    ensures r.Some? ==> r.value == Strip(text)
  {
    var fio := Strip(text);
    if |Words(fio)| < 2 then None else Some(fio)
  }

  /** Surname and first name separated by a space are accepted; a single word is not. */
  lemma FullNameWords(a: string, b: string)
    requires a != [] && b != []
    requires forall i :: 0 <= i < |a| ==> !IsSpace(a[i])
    requires forall i :: 0 <= i < |b| ==> !IsSpace(b[i])
    ensures FullName(a + " " + b) == Some(a + " " + b)
    ensures FullName(a).None?
  {
    var s := a + " " + b;
    assert s[0] == a[0] && s[|s| - 1] == b[|b| - 1];
    StripOfTrimmed(s);
    WordsOfTwo(a, b);
    StripOfTrimmed(a);
    WordsCons(a, []);
    assert a + [] == a;
  }
}
