/** Course and academic-year rules (utils/course_calculator.py). The course changes on
    15 August; the 2021 cohort is held at the fifth (graduate) course. "Today" is a parameter. */
module CourseCalculator {
  import opened Strings
  import opened Dates

  const GRADUATE := "выпускник"
  const ACTIVE := "активен"

  /** The year in which the current academic year began: reference dates before 15 August
      belong to the academic year that began the year before. */
  function AcademicStart(ref: Date): (y: int)
    ensures y == ref.year - 1 <==> DateLess(ref, Date(ref.year, 8, 15))
    ensures y == ref.year <==> !DateLess(ref, Date(ref.year, 8, 15))
  {
    if ref.month < 8 || (ref.month == 8 && ref.day < 15) then ref.year - 1 else ref.year
  }

  /** The uncapped course number: academic start year minus enrollment year, plus one. */
  function RawCourse(enrollmentYear: int, ref: Date): int {
    AcademicStart(ref) - enrollmentYear + 1
  }

  /** `get_current_course`. */
  function CurrentCourse(enrollmentYear: int, ref: Date): (c: int)
    ensures c >= 1
    ensures enrollmentYear == 2021 && RawCourse(enrollmentYear, ref) > 4 ==> c == 5
    ensures !(enrollmentYear == 2021 && RawCourse(enrollmentYear, ref) > 4) ==>
              (c == RawCourse(enrollmentYear, ref) || (c == 1 && RawCourse(enrollmentYear, ref) < 1))
  {
    var course := RawCourse(enrollmentYear, ref);
    if enrollmentYear == 2021 && course > 4 then 5
    else if course < 1 then 1 else course
  }

  /** The course never goes down as time passes. */
  lemma CourseMonotone(enrollmentYear: int, a: Date, b: Date)
    requires ValidDate(a) && ValidDate(b) && DateLess(a, b)
    ensures CurrentCourse(enrollmentYear, a) <= CurrentCourse(enrollmentYear, b)
  {
    assert AcademicStart(a) <= AcademicStart(b);
  }

  /** Between two 15 Augusts the course does not change; on 15 August it moves on by one
      (for a cohort that is neither capped nor clamped). */
  lemma CourseStepsOnAugust15(enrollmentYear: int, year: int)
    requires enrollmentYear != 2021 && year - enrollmentYear >= 1
    ensures CurrentCourse(enrollmentYear, Date(year, 8, 15))
            == CurrentCourse(enrollmentYear, Date(year, 8, 14)) + 1
  {
  }

  /** The 2021 cohort never passes course 5, and is at course 5 exactly from 15 August 2025. */
  lemma Cohort2021Held(today: Date)
    ensures CurrentCourse(2021, today) <= 5
    ensures CurrentCourse(2021, today) == 5 <==> !DateLess(today, Date(2025, 8, 15))
  {
    if DateLess(today, Date(2025, 8, 15)) {
      assert AcademicStart(today) <= 2024;
    } else {
      assert AcademicStart(today) >= 2025;
    }
  }

  /** Every other cohort goes on counting: from its own year on, each 15 August starts course
      year - enrollment + 1, with no cap, so the 2021 hold is the only exception. */
  lemma CohortCounts(enrollmentYear: int, year: int)
    requires enrollmentYear != 2021 && year >= enrollmentYear
    ensures CurrentCourse(enrollmentYear, Date(year, 8, 15)) == year - enrollmentYear + 1
    ensures CurrentCourse(enrollmentYear, Date(year + 1, 8, 14)) == year - enrollmentYear + 1
  {
  }

  datatype NextCourse = Course(n: int) | Release

  datatype CourseInfo = CourseInfo(current: int, next: NextCourse, daysUntilNext: int,
                                   status: string, enrollmentYear: int, graduationYear: int)

  /** The 15 August on which the next transition happens, as the code computes it: the
      next year's only when both month >= 8 and day >= 15. */
  function NextTransitionAsWritten(today: Date): Date {
    if today.month >= 8 && today.day >= 15 then Date(today.year + 1, 8, 15)
    else Date(today.year, 8, 15)
  }

  /** The 15 August on which the next transition happens: this year's if it is still ahead,
      otherwise next year's. */
  function NextTransition(today: Date): (t: Date)
    requires ValidDate(today) && today.year < 9999
    ensures ValidDate(t) && t.month == 8 && t.day == 15
    ensures DateLess(today, t)
    ensures t.year == today.year || t.year == today.year + 1
    ensures t.year == today.year + 1 ==> !DateLess(today, Date(today.year, 8, 15))
  {
    if today.month > 8 || (today.month == 8 && today.day >= 15) then Date(today.year + 1, 8, 15)
    else Date(today.year, 8, 15)
  }

  /** Whole days from today to the next transition, never negative. */
  function DaysUntilNext(today: Date): (n: int)
    requires ValidDate(today) && today.year < 9999
    ensures n > 0
  {
    OrdinalOrder(today, NextTransition(today));
    var d := DaysBetween(today, NextTransition(today));
    if d < 0 then 0 else d
  }

  function DaysUntilNextAsWritten(today: Date): (n: int)
    requires ValidDate(today) && today.year < 9999
    ensures n >= 0
  {
    var d := DaysBetween(today, NextTransitionAsWritten(today));
    if d < 0 then 0 else d
  }

  /** The code's target date lies in the past from 1 to 14 September (and on days 1..14 of
      any later month): on 3 September 2025 it reports 0 days until the transition. */
  lemma DaysUntilNextAsWrittenWrong()
    ensures DaysUntilNextAsWritten(Date(2025, 9, 3)) == 0
    ensures DaysUntilNext(Date(2025, 9, 3)) > 0
  {
    OrdinalOrder(Date(2025, 8, 15), Date(2025, 9, 3));
  }

  /** The two agree whenever the code's target is still ahead. */
  lemma DaysUntilNextAgrees(today: Date)
    requires ValidDate(today) && today.year < 9999
    requires today.month < 8 || today.day >= 15
    ensures DaysUntilNextAsWritten(today) == DaysUntilNext(today)
  {
  }

  /** `get_course_info`, with the day count as the code computes it. */
  function GetCourseInfo(enrollmentYear: int, today: Date): (info: CourseInfo)
    requires ValidDate(today) && today.year < 9999
    ensures info.current == CurrentCourse(enrollmentYear, today)
    ensures info.status == GRADUATE <==> info.current >= 5
    ensures info.status == ACTIVE <==> info.current < 5
    ensures info.next == Course(info.current + 1) <==> info.current < 4
    ensures info.next == Release <==> info.current >= 4
    ensures info.daysUntilNext == DaysUntilNextAsWritten(today) && info.daysUntilNext >= 0
    ensures info.enrollmentYear == enrollmentYear
    ensures info.graduationYear == enrollmentYear + 4
  {
    var current := CurrentCourse(enrollmentYear, today);
    var status := if current >= 5 || (enrollmentYear == 2021 && current == 5) then GRADUATE else ACTIVE;
    var next := if current >= 5 || (enrollmentYear == 2021 && current == 5) then Release
                else if current < 4 then Course(current + 1) else Release;
    CourseInfo(current, next, DaysUntilNextAsWritten(today), status, enrollmentYear, enrollmentYear + 4)
  }

  /** The same summary with the corrected day count: everything else is unchanged, and the
      count is always positive. */
  function GetCourseInfoIntended(enrollmentYear: int, today: Date): (info: CourseInfo)
    requires ValidDate(today) && today.year < 9999
    ensures info == GetCourseInfo(enrollmentYear, today).(daysUntilNext := DaysUntilNext(today))
    ensures info.daysUntilNext > 0
  {
    GetCourseInfo(enrollmentYear, today).(daysUntilNext := DaysUntilNext(today))
  }

  /** An academic year as "Y/Y+1". */
  function YearPair(y: int): string {
    IntToString(y) + "/" + IntToString(y + 1)
  }

  /** `get_academic_year`. It names the academic year of the course rule, except on 1..14
      August, when it already shows the year that starts on 15 August. */
  function AcademicYearLabel(today: Date): (s: string)
    ensures !(today.month == 8 && today.day < 15) ==> s == YearPair(AcademicStart(today))
    ensures today.month == 8 && today.day < 15 ==> s == YearPair(AcademicStart(today) + 1)
  {
    if today.month >= 8 then IntToString(today.year) + "/" + IntToString(today.year + 1)
    else IntToString(today.year - 1) + "/" + IntToString(today.year)
  }

  /** Different academic years get different labels. */
  lemma YearPairInjective(a: int, b: int)
    requires YearPair(a) == YearPair(b)
    ensures a == b
  {
    var s, u, v := YearPair(a), IntToString(a), IntToString(b);
    IntToStringChars(a);
    IntToStringChars(b);
    assert s[|u|] == '/' && s[|v|] == '/';
    assert u == s[..|u|] && v == s[..|v|];
    IntToStringInjective(a, b);
  }

  const Emojis := ["1\U{FE0F}\U{20E3}", "2\U{FE0F}\U{20E3}", "3\U{FE0F}\U{20E3}", "4\U{FE0F}\U{20E3}"]

  /** `format_course_display`. */
  function FormatCourseDisplay(course: int, status: string): string {
    if status == GRADUATE then "🎓 Выпускник"
    else if 1 <= course <= 4 then Emojis[course - 1] + " " + IntToString(course) + " курс"
    else "📚 " + IntToString(course) + " курс"
  }

  lemma {:induction false} NatToStringInjective(a: nat, b: nat)
    requires NatToString(a) == NatToString(b)
    ensures a == b
  {
    NatToStringRoundTrip(a);
    NatToStringRoundTrip(b);
  }

  lemma IntToStringSign(a: int)
    ensures IntToString(a)[0] == '-' <==> a < 0
  {
    if a >= 0 { assert IsDigit(NatToString(a)[0]); }
  }

  lemma IntToStringInjective(a: int, b: int)
    requires IntToString(a) == IntToString(b)
    ensures a == b
  {
    IntToStringSign(a);
    IntToStringSign(b);
    if a < 0 && b < 0 {
      assert NatToString(-a) == IntToString(a)[1..];
      assert NatToString(-b) == IntToString(b)[1..];
      NatToStringInjective(-a, -b);
    } else if a >= 0 && b >= 0 {
      NatToStringInjective(a, b);
    }
  }

  lemma DisplayFirstChar(c: int, status: string)
    requires status != GRADUATE
    ensures FormatCourseDisplay(c, status)[0] == '📚' <==> !(1 <= c <= 4)
  {
    if 1 <= c <= 4 { assert FormatCourseDisplay(c, status)[0] == Emojis[c - 1][0]; }
  }

  /** The graduate caption is one and the same for every course, and no other status gives it. */
  lemma DisplayGraduate(c1: int, c2: int, status: string)
    requires status != GRADUATE
    ensures FormatCourseDisplay(c1, GRADUATE) == FormatCourseDisplay(c2, GRADUATE)
    ensures FormatCourseDisplay(c1, GRADUATE)[0] == '🎓' != FormatCourseDisplay(c2, status)[0]
  {
    if 1 <= c2 <= 4 { assert FormatCourseDisplay(c2, status)[0] == Emojis[c2 - 1][0]; }
  }

  /** The display of a non-graduate names the course: different courses never look alike. */
  lemma DisplayDistinguishesCourses(c1: int, c2: int, status: string)
    requires status != GRADUATE
    requires FormatCourseDisplay(c1, status) == FormatCourseDisplay(c2, status)
    ensures c1 == c2
  {
    var s := FormatCourseDisplay(c1, status);
    var tail := " курс";
    DisplayFirstChar(c1, status);
    DisplayFirstChar(c2, status);
    if 1 <= c1 <= 4 && 1 <= c2 <= 4 {
      assert s[0] == DigitChar(c1 as nat) && s[0] == DigitChar(c2 as nat);
    } else if !(1 <= c1 <= 4) && !(1 <= c2 <= 4) {
      var n1, n2 := IntToString(c1), IntToString(c2);
      assert s == "📚 " + n1 + tail && s == "📚 " + n2 + tail;
      assert |n1| == |n2|;
      assert n1 == s[2..|s| - |tail|];
      assert n2 == s[2..|s| - |tail|];
      IntToStringInjective(c1, c2);
    }
  }
}
