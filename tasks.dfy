/** Task reminders (handlers/tasks.py): the "DD HH:MM" input, the deadline it names (moved
    to the next month when the day has already passed this month), and the task table rows
    written when a reminder is set or changed. "Now" is a parameter. */
module Tasks {
  import opened Strings
  import opened Dates

  datatype DateTime = DateTime(date: Date, hour: int, minute: int, second: int)

  predicate ValidDateTime(t: DateTime) {
    ValidDate(t.date) && 0 <= t.hour < 24 && 0 <= t.minute < 60 && 0 <= t.second < 60
  }

  /** `strftime('%Y-%m-%d %H:%M:%S')`. */
  function FormatDateTime(t: DateTime): (s: string)
    requires ValidDateTime(t)
    ensures |s| == 19 && s[..10] == FormatDate(t.date) && s[10] == ' ' && s[13] == ':' && s[16] == ':'
  {
    FormatDate(t.date) + " " + Pad2(t.hour) + ":" + Pad2(t.minute) + ":" + Pad2(t.second)
  }

  /** The date part of a stored deadline reads back as the deadline's date. */
  lemma FormatDateTimeDate(t: DateTime)
    requires ValidDateTime(t)
    ensures ParseIsoDate(FormatDateTime(t)[..10]) == Some(t.date)
  {
    ParseFormatDate(t.date);
  }

  /** Length of the leading run of decimal digits. */
  function DigitRun(s: string): (n: nat)
    ensures n <= |s|
    ensures forall i :: 0 <= i < n ==> IsDigit(s[i])
    ensures n < |s| ==> !IsDigit(s[n])
  {
    if s == [] || !IsDigit(s[0]) then 0 else 1 + DigitRun(s[1..])
  }

  datatype ReminderInput = ReminderInput(day: nat, hour: nat, minute: nat)

  /** `re.match(r'^(\d{1,2})\s+(\d{1,2}):(\d{2})$', text)` and the three numbers it captures. */
  function MatchReminder(text: string): (r: Option<ReminderInput>)
    ensures r.Some? ==> r.value.day < 100 && r.value.hour < 100 && r.value.minute < 100
  {
    var n1 := DigitRun(text);
    if n1 < 1 || n1 > 2 then None
    else
      match MatchAfterDay(text[n1..])
      case None => None
      case Some(hm) =>
        TwoDigitsBound(text[..n1]);
        Some(ReminderInput(DigitsToNat(text[..n1]), hm.0, hm.1))
  }

  /** `\s+(\d{1,2}):(\d{2})$`: at least one space, then the time. */
  function MatchAfterDay(r1: string): (r: Option<(nat, nat)>)
    ensures r.Some? ==> r.value.0 < 100 && r.value.1 < 100
  {
    var sp := LeadingSpaces(r1);
    if sp == 0 then None else MatchClock(r1[sp..])
  }

  /** `(\d{1,2}):(\d{2})$`. */
  function MatchClock(r2: string): (r: Option<(nat, nat)>)
    ensures r.Some? ==> r.value.0 < 100 && r.value.1 < 100
  {
    var n2 := DigitRun(r2);
    if n2 < 1 || n2 > 2 then None
    else
      var r3 := r2[n2..];
      if |r3| == 3 && r3[0] == ':' && IsDigit(r3[1]) && IsDigit(r3[2]) then
        TwoDigitsBound(r2[..n2]);
        TwoDigitsBound(r3[1..]);
        Some((DigitsToNat(r2[..n2]), DigitsToNat(r3[1..])))
      else None
  }

  lemma TwoDigitsBound(s: string)
    requires 1 <= |s| <= 2 && forall i :: 0 <= i < |s| ==> IsDigit(s[i])
    ensures DigitsToNat(s) < 100
  {
    if |s| == 2 { assert DigitsToNat(s[..1]) < 10; }
  }

  lemma DigitRunOfPadded(s: string, rest: string)
    requires IsDigits(s) && (rest == [] || !IsDigit(rest[0]))
    ensures DigitRun(s + rest) == |s|
    decreases |s|
  {
    if |s| > 1 {
      assert (s + rest)[1..] == s[1..] + rest;
      DigitRunOfPadded(s[1..], rest);
    } else {
      assert (s + rest)[1..] == rest;
    }
  }

  /** The zero-padded input "DD HH:MM" is matched with exactly those numbers. */
  lemma MatchReminderPadded(day: nat, hour: nat, minute: nat)
    requires day < 100 && hour < 100 && minute < 100
    ensures MatchReminder(Pad2(day) + " " + Pad2(hour) + ":" + Pad2(minute))
            == Some(ReminderInput(day, hour, minute))
  {
    var d, h, m := Pad2(day), Pad2(hour), Pad2(minute);
    var text := d + " " + h + ":" + m;
    var r1 := " " + h + ":" + m;
    assert text == d + r1;
    DigitRunOfPadded(d, r1);
    assert text[..2] == d && text[2..] == r1;
    assert LeadingSpaces(r1) == 1 by {
      assert r1[1..] == h + ":" + m;
      assert r1[1] == h[0];
    }
    var r2 := h + ":" + m;
    assert r1[1..] == r2;
    DigitRunOfPadded(h, ":" + m);
    assert r2[..2] == h;
    assert r2[2..] == ":" + m;
    assert (":" + m)[1..] == m;
  }

  /** A form that the pattern does not allow, such as a three-digit day, is rejected. */
  lemma MatchReminderRejectsLongDay(text: string)
    requires |text| >= 3 && IsDigit(text[0]) && IsDigit(text[1]) && IsDigit(text[2])
    ensures MatchReminder(text).None?
  {
    assert DigitRun(text) >= 3 by {
      assert DigitRun(text[1..]) >= 2 by { assert DigitRun(text[1..][1..]) >= 1 by { assert text[1..][1..][0] == text[2]; } }
    }
  }

  /** The pieces of a text matching `^(\d{1,2})\s+(\d{1,2}):(\d{2})$`: one or two digits,
      at least one whitespace character, one or two digits, ':', two digits. */
  predicate ReminderPieces(t: string, a: string, s: string, b: string, c: string) {
    t == a + s + b + ":" + c
    && 1 <= |a| <= 2 && IsDigits(a)
    && |s| >= 1 && (forall i :: 0 <= i < |s| ==> IsSpace(s[i]))
    && 1 <= |b| <= 2 && IsDigits(b)
    && |c| == 2 && IsDigits(c)
  }

  /** The text matches the pattern, and x holds the numbers of its three groups. */
  ghost predicate ReminderShape(t: string, x: ReminderInput) {
    exists a, s, b, c :: ReminderPieces(t, a, s, b, c)
                         && x == ReminderInput(DigitsToNat(a), DigitsToNat(b), DigitsToNat(c))
  }

  lemma {:induction false} LeadingSpacesOf(s: string, rest: string)
    requires forall i :: 0 <= i < |s| ==> IsSpace(s[i])
    requires rest == [] || !IsSpace(rest[0])
    ensures LeadingSpaces(s + rest) == |s|
  {
    if s != [] {
      assert (s + rest)[1..] == s[1..] + rest;
      LeadingSpacesOf(s[1..], rest);
    } else {
      assert s + rest == rest;
    }
  }

  /** `(\d{1,2}):(\d{2})$` accepts exactly its pieces. */
  lemma ClockSound(r2: string) returns (b: string, c: string)
    requires MatchClock(r2).Some?
    ensures r2 == b + ":" + c && 1 <= |b| <= 2 && IsDigits(b) && |c| == 2 && IsDigits(c)
    ensures MatchClock(r2).value == (DigitsToNat(b), DigitsToNat(c))
  {
    var n2 := DigitRun(r2);
    var r3 := r2[n2..];
    b, c := r2[..n2], r3[1..];
    assert r2 == b + r3 && r3 == ":" + c;
  }

  lemma ClockComplete(b: string, c: string)
    requires 1 <= |b| <= 2 && IsDigits(b) && |c| == 2 && IsDigits(c)
    ensures MatchClock(b + ":" + c) == Some((DigitsToNat(b), DigitsToNat(c)))
  {
    var r2 := b + ":" + c;
    DigitRunOfPadded(b, ":" + c);
    assert r2[..|b|] == b && r2[|b|..] == ":" + c;
    assert (":" + c)[1..] == c;
  }

  /** `\s+` then the clock. */
  lemma AfterDaySound(r1: string) returns (s: string, r2: string)
    requires MatchAfterDay(r1).Some?
    ensures r1 == s + r2 && |s| >= 1 && (forall i :: 0 <= i < |s| ==> IsSpace(s[i]))
    ensures MatchAfterDay(r1) == MatchClock(r2)
  {
    var sp := LeadingSpaces(r1);
    s, r2 := r1[..sp], r1[sp..];
    assert r1 == s + r2;
  }

  lemma AfterDayComplete(s: string, r2: string)
    requires |s| >= 1 && (forall i :: 0 <= i < |s| ==> IsSpace(s[i]))
    requires r2 != [] && IsDigit(r2[0])
    ensures MatchAfterDay(s + r2) == MatchClock(r2)
  {
    LeadingSpacesOf(s, r2);
    assert (s + r2)[|s|..] == r2;
  }

  /** The day, then the rest. */
  lemma ReminderSplit(text: string) returns (a: string, r1: string)
    requires MatchReminder(text).Some?
    ensures text == a + r1 && 1 <= |a| <= 2 && IsDigits(a) && MatchAfterDay(r1).Some?
    ensures MatchReminder(text).value == ReminderInput(DigitsToNat(a), MatchAfterDay(r1).value.0, MatchAfterDay(r1).value.1)
  {
    var n1 := DigitRun(text);
    a, r1 := text[..n1], text[n1..];
    assert text == a + r1;
  }

  lemma ReminderJoin(a: string, r1: string)
    requires 1 <= |a| <= 2 && IsDigits(a) && r1 != [] && !IsDigit(r1[0])
    ensures MatchReminder(a + r1) == match MatchAfterDay(r1)
                                     case None => None
                                     case Some(hm) => Some(ReminderInput(DigitsToNat(a), hm.0, hm.1))
  {
    DigitRunOfPadded(a, r1);
    assert (a + r1)[..|a|] == a && (a + r1)[|a|..] == r1;
  }

  /** Whatever is accepted matches the pattern, with the numbers of its groups. */
  lemma MatchReminderSound(text: string)
    requires MatchReminder(text).Some?
    ensures ReminderShape(text, MatchReminder(text).value)
  {
    var a, r1 := ReminderSplit(text);
    var s, r2 := AfterDaySound(r1);
    var b, c := ClockSound(r2);
    Assoc4(a, s, b, c);
    assert ReminderPieces(text, a, s, b, c);
    var x := MatchReminder(text).value;
    assert x == ReminderInput(DigitsToNat(a), DigitsToNat(b), DigitsToNat(c));
  }

  /** Every text of the pattern is accepted with the numbers of its groups. */
  lemma MatchReminderComplete(text: string, a: string, s: string, b: string, c: string)
    requires ReminderPieces(text, a, s, b, c)
    ensures MatchReminder(text) == Some(ReminderInput(DigitsToNat(a), DigitsToNat(b), DigitsToNat(c)))
  {
    var r2 := b + ":" + c;
    var r1 := s + r2;
    assert text == a + r1;
    ClockComplete(b, c);
    assert r2[0] == b[0];
    AfterDayComplete(s, r2);
    assert r1[0] == s[0];
    NotSpaceAndDigit(s[0]);
    ReminderJoin(a, r1);
  }

  lemma Assoc4(a: string, s: string, b: string, c: string)
    ensures a + (s + (b + ":" + c)) == a + s + b + ":" + c
  {
  }

  lemma NotSpaceAndDigit(c: char)
    requires IsSpace(c)
    ensures !IsDigit(c)
  {
  }

  /** `re.match` succeeds with x exactly when the text has the pattern's shape with x's
      numbers: the two directions together. */
  lemma MatchReminderIff(text: string, x: ReminderInput)
    ensures MatchReminder(text) == Some(x) <==> ReminderShape(text, x)
  {
    if MatchReminder(text) == Some(x) {
      MatchReminderSound(text);
    }
    if ReminderShape(text, x) {
      var a, s, b, c :| ReminderPieces(text, a, s, b, c)
                        && x == ReminderInput(DigitsToNat(a), DigitsToNat(b), DigitsToNat(c));
      MatchReminderComplete(text, a, s, b, c);
    }
  }

  /** The month a day number refers to: this month, or the next one (December rolls over to
      January of the next year) when that day has already passed this month. */
  function TargetMonth(day: int, now: Date): (ym: (int, int))
    ensures day < now.day && now.month < 12 ==> ym == (now.year, now.month + 1)
    ensures day < now.day && now.month >= 12 ==> ym == (now.year + 1, 1)
    ensures day >= now.day ==> ym == (now.year, now.month)
  {
    var year, month := now.year, now.month;
    if day < now.day then
      if month + 1 > 12 then (year + 1, 1) else (year, month + 1)
    else (year, month)
  }

  /** `datetime(year, month, day, hour, minute)` for the entered numbers; None where Python
      raises ValueError (no such day in that month, hour > 23, minute > 59). */
  function Deadline(input: ReminderInput, now: Date): (r: Option<DateTime>)
    ensures r.Some? ==> ValidDateTime(r.value) && r.value.date.day == input.day
                        && r.value.hour == input.hour && r.value.minute == input.minute
                        && r.value.second == 0
    ensures r.Some? <==> (var ym := TargetMonth(input.day, now);
                          ValidDate(Date(ym.0, ym.1, input.day)) && input.hour < 24 && input.minute < 60)
  {
    var ym := TargetMonth(input.day, now);
    match MakeDate(ym.0, ym.1, input.day)
    case None => None
    case Some(d) => if input.hour < 24 && input.minute < 60 then Some(DateTime(d, input.hour, input.minute, 0)) else None
  }

  /** The deadline's day is never before today: a day that has passed this month goes to the
      next month. */
  lemma DeadlineNotBeforeToday(input: ReminderInput, now: Date)
    requires ValidDate(now) && Deadline(input, now).Some?
    ensures !DateLess(Deadline(input, now).value.date, now)
    ensures Deadline(input, now).value.date == now || DateLess(now, Deadline(input, now).value.date)
  {
  }

  datatype Task = Task(userId: int, text: string, deadline: Option<string>, done: bool, reminded: bool)

  datatype Outcome = BadFormat | BadDate | Stored(deadline: string)

  /** What `task_enter_reminder_date` and `task_enter_edit_reminder` do with the text. */
  function ReminderOutcome(text: string, now: Date): (o: Outcome)
    ensures MatchReminder(Strip(text)).None? <==> o == BadFormat
    ensures o.Stored? ==> |o.deadline| == 19 && o.deadline[17..] == "00"
  {
    match MatchReminder(Strip(text))
    case None => BadFormat
    case Some(input) =>
      match Deadline(input, now)
      case None => BadDate
      case Some(t) => Stored(FormatDateTime(t))
  }

  /** The tasks table: rows by id, and the id the next insert gets. */
  class TaskTable {
    var tasks: map<int, Task>
    var nextId: int

    predicate Valid()
      reads this
    {
      forall id :: id in tasks ==> id < nextId
    }

    constructor ()
      ensures Valid() && tasks == map[] && nextId == 1
    {
      tasks := map[];
      nextId := 1;
    }

    /** `task_enter_reminder_date`: a new task with that deadline, not done and not yet
        reminded; nothing is stored when the input is rejected. */
    method AddWithReminder(userId: int, text: string, input: string, now: Date) returns (o: Outcome)
      requires Valid()
      modifies this
      ensures Valid()
      ensures o == ReminderOutcome(input, now)
      ensures o.Stored? ==> tasks == old(tasks)[old(nextId) := Task(userId, text, Some(o.deadline), false, false)]
                            && nextId == old(nextId) + 1
      ensures !o.Stored? ==> tasks == old(tasks) && nextId == old(nextId)
    {
      o := ReminderOutcome(input, now);
      if o.Stored? {
        Insert(Task(userId, text, Some(o.deadline), false, false));
      }
    }

    /** An INSERT: the row gets the next id. */
    method Insert(row: Task)
      requires Valid()
      modifies this
      ensures Valid()
      ensures tasks == old(tasks)[old(nextId) := row] && nextId == old(nextId) + 1
    {
      tasks := tasks[nextId := row];
      nextId := nextId + 1;
    }

    /** `task_enter_edit_reminder`: the task's deadline replaced and `reminded` reset; every
        other row, and every other column of that row, is unchanged. An id with no row
        changes nothing (an UPDATE that matches no row). */
    method EditReminder(id: int, input: string, now: Date) returns (o: Outcome)
      requires Valid()
      modifies this
      ensures Valid() && nextId == old(nextId)
      ensures o == ReminderOutcome(input, now)
      ensures o.Stored? && id in old(tasks) ==>
                tasks == old(tasks)[id := old(tasks)[id].(deadline := Some(o.deadline), reminded := false)]
      ensures !o.Stored? || id !in old(tasks) ==> tasks == old(tasks)
    {
      o := ReminderOutcome(input, now);
      if o.Stored? && id in tasks {
        Update(id, tasks[id].(deadline := Some(o.deadline), reminded := false));
      }
    }

    /** An UPDATE of an existing row. */
    method Update(id: int, row: Task)
      requires Valid() && id in tasks
      modifies this
      ensures Valid() && nextId == old(nextId)
      ensures tasks == old(tasks)[id := row]
    {
      tasks := tasks[id := row];
    }
  }
}
