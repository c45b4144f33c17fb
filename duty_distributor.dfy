/** The daily duty distributor (handlers/duty_distributor.py). Inside the 15:30-15:35
    window, for every enrollment year on duty today, the course ("к") and rapid-reaction
    ("гбр") rosters are split into numbered shifts in a shuffled order, and the canteen
    ("с") roster is spread over the six canteen objects: the fairest score first, the
    heaviest object first, round-robin. Each (date, role, year) is distributed once; every
    assignment writes its table and appends one history row.

    The database becomes a value: the duty_schedule rows, the users' global scores and the
    object weights are read-only inputs; the two assignment tables are maps keyed by their
    (assumed) unique columns; the history table is an append-only sequence. The shuffle is
    an injected function. */
module DutyDistributor {
  import opened Strings
  import opened Sorting
  import opened Dates
  import Schedule
  import Tasks

  const CanteenObjects: seq<string> := ["ГЦ", "овощи", "тарелки", "железо", "стаканы", "лента"]
  const ShiftRoles: seq<string> := ["к", "гбр"]
  const CanteenRole: string := "с"
  const DistributionHour: int := 15
  const DistributionMinute: int := 30

  /** The five minutes in which a run does anything: 15:30 to 15:35 inclusive. */
  predicate InWindow(hour: int, minute: int) {
    hour == DistributionHour && DistributionMinute <= minute <= DistributionMinute + 5
  }

  /** A duty_schedule row. */
  datatype ScheduleRow = ScheduleRow(date: string, role: string, fio: string, year: int)

  /** A duty_assignment_history row: a shift for "к"/"гбр", a sub-object for "с". */
  datatype HistoryRow = HistoryRow(fio: string, date: string, role: string, shift: Option<int>,
                                   subObject: Option<string>, year: int)

  /** (date, role, fio, enrollment_year) of duty_shift_assignments. */
  type ShiftKey = (string, string, string, int)
  /** (date, fio, enrollment_year) of duty_canteen_assignments. */
  type CanteenKey = (string, string, int)

  /** The tables the distributor writes. */
  datatype Tables = Tables(shifts: map<ShiftKey, int>, canteen: map<CanteenKey, string>, history: seq<HistoryRow>)

  /** The tables it only reads: duty_schedule, users.global_score by (fio, year), and the
      object weights by name. */
  datatype Db = Db(schedule: seq<ScheduleRow>, users: map<(string, int), real>, weights: map<string, real>)

  // ---------------------------------------------------------------------------
  // The roster queries

  function OnDay(today: string): ScheduleRow -> bool {
    (r: ScheduleRow) => r.date == today
  }

  function RowYear(r: ScheduleRow): int { r.year }

  function RowFio(r: ScheduleRow): string { r.fio }

  /** `SELECT DISTINCT enrollment_year FROM duty_schedule WHERE date = today`, in the order
      the years first occur. */
  function Years(schedule: seq<ScheduleRow>, today: string): seq<int> {
    Schedule.Dedup(Map(Filter(schedule, OnDay(today)), RowYear))
  }

  function OnDuty(today: string, role: string, ey: int): ScheduleRow -> bool {
    (r: ScheduleRow) => r.date == today && r.role == role && r.year == ey
  }

  /** `SELECT fio FROM duty_schedule WHERE date = ? AND role = ? AND enrollment_year = ?`. */
  function Roster(schedule: seq<ScheduleRow>, today: string, role: string, ey: int): seq<string> {
    Map(Filter(schedule, OnDuty(today, role, ey)), RowFio)
  }

  /** `random.shuffle` leaves the same names, reordered. */
  ghost predicate IsShuffle(shuffle: seq<string> -> seq<string>) {
    forall xs :: multiset(shuffle(xs)) == multiset(xs)
  }

  // ---------------------------------------------------------------------------
  // Shift split

  /** "к": the first three get shifts 1, 2, 3, everybody after them 0. */
  function CourseShift(i: nat): int {
    if i < 3 then i + 1 else 0
  }

  /** "гбр": two people per shift, numbered from 1. */
  function GbrShift(i: nat): int {
    i / 2 + 1
  }

  /** The `assignments` list: (fio, shift) in the shuffled order; a role other than the two
      gets none. */
  function Assign(role: string, names: seq<string>): (a: seq<(string, int)>)
    ensures role in ShiftRoles ==> |a| == |names|
    ensures role !in ShiftRoles ==> a == []
  {
    if role == "к" then seq(|names|, i requires 0 <= i < |names| => (names[i], CourseShift(i)))
    else if role == "гбр" then seq(|names|, i requires 0 <= i < |names| => (names[i], GbrShift(i)))
    else []
  }

  function AssignedShift(a: (string, int)): int { a.1 }

  function AssignedFio(a: (string, int)): string { a.0 }

  function CourseShifts(n: nat): seq<int> {
    seq(n, i requires 0 <= i < n => CourseShift(i))
  }

  function GbrShifts(n: nat): seq<int> {
    seq(n, i requires 0 <= i < n => GbrShift(i))
  }

  /** Every shuffled name is assigned once, in the shuffled order. */
  lemma AssignNames(role: string, names: seq<string>)
    requires role in ShiftRoles
    ensures Map(Assign(role, names), AssignedFio) == names
  {
  }

  /** "к": shifts 1, 2 and 3 are each given at most once (exactly once while there are that
      many people), and exactly max(0, N - 3) people get shift 0. */
  lemma {:induction false} CourseShiftCounts(n: nat, s: int)
    ensures Count(CourseShifts(n), 0) == if n > 3 then n - 3 else 0
    ensures s != 0 ==> Count(CourseShifts(n), s) == if 1 <= s <= 3 && s <= n then 1 else 0
    decreases n
  {
    if n > 0 {
      assert CourseShifts(n)[..n - 1] == CourseShifts(n - 1);
      CourseShiftCounts(n - 1, s);
    }
  }

  /** "гбр": shift s holds the people at positions 2(s-1) and 2(s-1)+1 that exist, so at most
      two, and the shifts in use are exactly 1 to ceil(N/2). */
  lemma {:induction false} GbrShiftCounts(n: nat, s: int)
    ensures Count(GbrShifts(n), s) == if s < 1 || n <= 2 * (s - 1) then 0
                                     else if n == 2 * (s - 1) + 1 then 1 else 2
    ensures Count(GbrShifts(n), s) <= 2
    ensures Count(GbrShifts(n), s) > 0 <==> 1 <= s <= (n + 1) / 2
    decreases n
  {
    if n > 0 {
      assert GbrShifts(n)[..n - 1] == GbrShifts(n - 1);
      GbrShiftCounts(n - 1, s);
    }
  }

  lemma AssignShifts(names: seq<string>)
    ensures Map(Assign("к", names), AssignedShift) == CourseShifts(|names|)
    ensures Map(Assign("гбр", names), AssignedShift) == GbrShifts(|names|)
  {
  }

  // ---------------------------------------------------------------------------
  // Canteen scoring

  /** `weights_map.get(o, 10)`. */
  function Weight(weights: map<string, real>, o: string): real {
    if o in weights then weights[o] else 10.0
  }

  function WeightKey(weights: map<string, real>): string -> real {
    (o: string) => Weight(weights, o)
  }

  /** `o in heavy`: one of the six objects, weighing at least 12. */
  predicate Heavy(weights: map<string, real>, o: string) {
    o in CanteenObjects && Weight(weights, o) >= 12.0
  }

  /** `u["global_score"] if u and u["global_score"] else 0`: no row, NULL and 0 all give 0. */
  function GlobalScore(users: map<(string, int), real>, fio: string, ey: int): real {
    if (fio, ey) in users then users[(fio, ey)] else 0.0
  }

  function IsCanteenRowOf(fio: string, ey: int): HistoryRow -> bool {
    (h: HistoryRow) => h.fio == fio && h.role == CanteenRole && h.year == ey
  }

  function HistoryDate(h: HistoryRow): string { h.date }

  predicate Later(a: string, b: string) { StrLess(b, a) }

  predicate HasSubObject(h: HistoryRow) { h.subObject.Some? && h.subObject.value != "" }

  function SubObjectOf(h: HistoryRow): string {
    if h.subObject.Some? then h.subObject.value else ""
  }

  lemma LaterIsOrder()
    ensures StrictOrder(Later)
  {
    Schedule.StrLessIsOrder();
    forall a: string, b: string, c: string | Later(a, b) && Later(b, c) ensures Later(a, c) {
      assert StrLess(c, b) && StrLess(b, a);
    }
  }

  /** The person's canteen rows of year ey, newest first: `ORDER BY date DESC`, with the rows
      of one date in the order they were written. */
  function CanteenRowsByDate(history: seq<HistoryRow>, fio: string, ey: int): seq<HistoryRow> {
    LaterIsOrder();
    SortBy(Filter(history, IsCanteenRowOf(fio, ey)), HistoryDate, Later)
  }

  /** `LIMIT 5`: the rows the penalty looks at. */
  function LatestCanteenRows(history: seq<HistoryRow>, fio: string, ey: int): (top: seq<HistoryRow>)
    ensures |top| <= 5
  {
    var latest := CanteenRowsByDate(history, fio, ey);
    if |latest| <= 5 then latest else latest[..5]
  }

  /** No row comes after a later one. */
  predicate NewestFirst(rows: seq<HistoryRow>) {
    forall a, b :: 0 <= a < b < |rows| ==> !StrLess(rows[a].date, rows[b].date)
  }

  /** Cutting a newest-first list after five rows leaves out no row later than the fifth. */
  lemma CutAfterFive(latest: seq<HistoryRow>)
    requires NewestFirst(latest) && |latest| > 5
    ensures NewestFirst(latest[..5])
    ensures multiset(latest) == multiset(latest[..5]) + multiset(latest[5..])
    ensures forall h :: h in multiset(latest[5..]) ==> !StrLess(latest[4].date, h.date)
  {
    assert latest == latest[..5] + latest[5..];
    forall h | h in multiset(latest[5..]) ensures !StrLess(latest[4].date, h.date) {
      var j :| 0 <= j < |latest[5..]| && latest[5..][j] == h;
      assert latest[j + 5] == h;
    }
  }

  /** The canteen rows newest first are a reordering of those rows. */
  lemma CanteenRowsByDateSpec(history: seq<HistoryRow>, fio: string, ey: int)
    ensures multiset(CanteenRowsByDate(history, fio, ey)) == multiset(Filter(history, IsCanteenRowOf(fio, ey)))
    ensures NewestFirst(CanteenRowsByDate(history, fio, ey))
  {
    LaterIsOrder();
    var rows := Filter(history, IsCanteenRowOf(fio, ey));
    SortByPermutation(rows, HistoryDate, Later);
    SortBySorted(rows, HistoryDate, Later);
  }

  /** The rows looked at are the min(5, n) latest of the person's n canteen rows of that year:
      they are newest first, they are taken from those rows, and no row left out is later
      than the last one kept. */
  lemma LatestCanteenRowsSpec(history: seq<HistoryRow>, fio: string, ey: int)
    ensures |LatestCanteenRows(history, fio, ey)| == (if |Filter(history, IsCanteenRowOf(fio, ey))| <= 5 then |Filter(history, IsCanteenRowOf(fio, ey))| else 5)
    ensures multiset(LatestCanteenRows(history, fio, ey)) <= multiset(Filter(history, IsCanteenRowOf(fio, ey)))
    ensures NewestFirst(LatestCanteenRows(history, fio, ey))
    ensures |Filter(history, IsCanteenRowOf(fio, ey))| <= 5 ==>
              multiset(LatestCanteenRows(history, fio, ey)) == multiset(Filter(history, IsCanteenRowOf(fio, ey)))
    ensures |Filter(history, IsCanteenRowOf(fio, ey))| > 5 ==>
              forall h :: h in multiset(Filter(history, IsCanteenRowOf(fio, ey))) - multiset(LatestCanteenRows(history, fio, ey))
                ==> !StrLess(LatestCanteenRows(history, fio, ey)[4].date, h.date)
  {
    var rows := Filter(history, IsCanteenRowOf(fio, ey));
    var latest := CanteenRowsByDate(history, fio, ey);
    CanteenRowsByDateSpec(history, fio, ey);
    assert |rows| == |latest| by { assert |multiset(rows)| == |multiset(latest)|; }
    if |latest| > 5 {
      CutAfterFive(latest);
    }
  }

  /** The non-empty sub-objects of those rows, newest first. */
  function RecentSubObjects(history: seq<HistoryRow>, fio: string, ey: int): (r: seq<string>)
    ensures |r| <= 5
  {
    Map(Filter(LatestCanteenRows(history, fio, ey), HasSubObject), SubObjectOf)
  }

  /** The streak penalty: 5 when the two most recent sub-objects are both heavy. */
  function Penalty(recent: seq<string>, weights: map<string, real>): real {
    if |recent| >= 2 && Heavy(weights, recent[0]) && Heavy(weights, recent[1]) then 5.0 else 0.0
  }

  /** `scores[fio] = 0.5 * gs + streak_penalty`. */
  function Score(history: seq<HistoryRow>, db: Db, fio: string, ey: int): real {
    0.5 * GlobalScore(db.users, fio, ey) + Penalty(RecentSubObjects(history, fio, ey), db.weights)
  }

  function ScoreKey(history: seq<HistoryRow>, db: Db, ey: int): string -> real {
    (f: string) => Score(history, db, f, ey)
  }

  /** Every sub-object counted is that of one of the person's canteen rows. */
  lemma RecentSubObjectsFrom(history: seq<HistoryRow>, fio: string, ey: int, s: string)
    requires s in RecentSubObjects(history, fio, ey)
    ensures exists h :: h in history && h.fio == fio && h.role == CanteenRole && h.year == ey
                        && h.subObject == Some(s) && s != ""
  {
    var top := LatestCanteenRows(history, fio, ey);
    var subs := Filter(top, HasSubObject);
    var i :| 0 <= i < |subs| && Map(subs, SubObjectOf)[i] == s;
    var h := subs[i];
    FilterMember(top, HasSubObject, h);
    LatestCanteenRowsSpec(history, fio, ey);
    assert h in multiset(Filter(history, IsCanteenRowOf(fio, ey)));
    FilterMember(history, IsCanteenRowOf(fio, ey), h);
  }

  /** The streak penalty in terms of the rows: of the rows looked at, those with a sub-object
      are kept newest first, and the score is half the global score plus 5 exactly when the
      two latest of them are both heavy. */
  lemma StreakPenalty(history: seq<HistoryRow>, db: Db, fio: string, ey: int)
    ensures var top := LatestCanteenRows(history, fio, ey);
            var subs := Filter(top, HasSubObject);
            NewestFirst(subs)
            && (forall h :: h in subs <==> h in top && HasSubObject(h))
            && Score(history, db, fio, ey) == 0.5 * GlobalScore(db.users, fio, ey)
                 + (if |subs| >= 2 && Heavy(db.weights, SubObjectOf(subs[0])) && Heavy(db.weights, SubObjectOf(subs[1]))
                    then 5.0 else 0.0)
  {
    var top := LatestCanteenRows(history, fio, ey);
    LatestCanteenRowsSpec(history, fio, ey);
    LaterIsOrder();
    assert forall a, b :: 0 <= a < b < |top| ==> !Later(HistoryDate(top[b]), HistoryDate(top[a]));
    FilterKeepsOrder(top, HasSubObject, HistoryDate, Later);
    FilterMembers(top, HasSubObject);
  }

  /** Without canteen history there is no penalty. */
  lemma NoHistoryNoPenalty(history: seq<HistoryRow>, db: Db, fio: string, ey: int)
    requires forall h :: h in history ==> !(h.fio == fio && h.role == CanteenRole && h.year == ey)
    ensures Score(history, db, fio, ey) == 0.5 * GlobalScore(db.users, fio, ey)
  {
    var recent := RecentSubObjects(history, fio, ey);
    if recent != [] {
      RecentSubObjectsFrom(history, fio, ey, recent[0]);
    }
  }

  // ---------------------------------------------------------------------------
  // Canteen order and round-robin

  predicate RealLess(a: real, b: real) { a < b }

  predicate RealGreater(a: real, b: real) { a > b }

  lemma RealOrders()
    ensures StrictOrder(RealLess) && StrictOrder(RealGreater)
  {
  }

  /** `sorted(CANTEEN_OBJECTS, key=weight, reverse=True)`: heaviest first, equal weights in
      list order. */
  function ObjectsByWeight(weights: map<string, real>): (objs: seq<string>)
    ensures |objs| == 6
  {
    RealOrders();
    SortBy(CanteenObjects, WeightKey(weights), RealGreater)
  }

  /** `sorted(names, key=score)`: lowest score first, equal scores in roster order. */
  function ByScore(names: seq<string>, history: seq<HistoryRow>, db: Db, ey: int): (r: seq<string>)
    ensures |r| == |names|
  {
    RealOrders();
    SortBy(names, ScoreKey(history, db, ey), RealLess)
  }

  /** Person i of the sorted list gets object `i % len(objects_sorted)` of the six sorted objects. */
  function RoundRobin(sorted: seq<string>, objs: seq<string>): (plan: seq<(string, string)>)
    requires |objs| == 6
    ensures |plan| == |sorted|
  {
    seq(|sorted|, i requires 0 <= i < |sorted| => (sorted[i], objs[Slot(i)]))
  }

  /** `i % 6`, the object slot of position i. */
  function Slot(i: nat): (s: nat)
    ensures s < 6 && s == i % 6
    ensures i < 6 ==> s == i
  {
    i % 6
  }

  lemma RoundRobinPeople(sorted: seq<string>, objs: seq<string>)
    requires |objs| == 6
    ensures Map(RoundRobin(sorted, objs), AssignedName) == sorted
  {
  }

  function AssignedName(a: (string, string)): string { a.0 }

  /** Rows appended for a canteen plan carry the plan's names in order. */
  lemma NewRowsFio(before: seq<HistoryRow>, after: seq<HistoryRow>, plan: seq<(string, string)>, today: string, ey: int)
    requires |after| == |before| + |plan|
    requires forall i :: 0 <= i < |plan| ==> after[|before| + i] == CanteenRow(today, ey, plan[i])
    ensures Map(after[|before|..], HistoryFio) == Map(plan, AssignedName)
  {
    forall i | 0 <= i < |plan| ensures Map(after[|before|..], HistoryFio)[i] == Map(plan, AssignedName)[i] {
      assert after[|before|..][i] == after[|before| + i];
    }
  }

  function CanteenPlan(names: seq<string>, history: seq<HistoryRow>, db: Db, ey: int): seq<(string, string)> {
    RoundRobin(ByScore(names, history, db, ey), ObjectsByWeight(db.weights))
  }

  /** The first of a list ordered by non-increasing `key` is a maximum of every list with
      the same elements. */
  lemma FirstIsGreatest(r: seq<string>, xs: seq<string>, key: string -> real)
    requires r != [] && multiset(r) == multiset(xs)
    requires forall a, b :: 0 <= a < b < |r| ==> key(r[a]) >= key(r[b])
    ensures forall x :: x in xs ==> key(r[0]) >= key(x)
  {
    forall x | x in xs ensures key(r[0]) >= key(x) {
      Schedule.SameElements(r, xs, x);
      var k :| 0 <= k < |r| && r[k] == x;
      if k > 0 {
        assert key(r[0]) >= key(r[k]);
      }
    }
  }

  /** The first of a list ordered by non-decreasing `key` is a minimum. */
  lemma FirstIsLeast(r: seq<string>, xs: seq<string>, key: string -> real)
    requires r != [] && multiset(r) == multiset(xs)
    requires forall a, b :: 0 <= a < b < |r| ==> key(r[a]) <= key(r[b])
    ensures forall x :: x in xs ==> key(r[0]) <= key(x)
  {
    forall x | x in xs ensures key(r[0]) <= key(x) {
      Schedule.SameElements(r, xs, x);
      var k :| 0 <= k < |r| && r[k] == x;
      if k > 0 {
        assert key(r[0]) <= key(r[k]);
      }
    }
  }

  /** The objects are the six canteen objects, once each, in non-increasing weight. */
  lemma ObjectsByWeightOrder(weights: map<string, real>)
    ensures var objs := ObjectsByWeight(weights);
            multiset(objs) == multiset(CanteenObjects)
            && forall a, b :: 0 <= a < b < |objs| ==> Weight(weights, objs[a]) >= Weight(weights, objs[b])
  {
    SortedByWeight(CanteenObjects, weights);
  }

  /** The first object is the heaviest of the six. */
  lemma HeaviestFirst(weights: map<string, real>)
    ensures forall o :: o in CanteenObjects ==> Weight(weights, ObjectsByWeight(weights)[0]) >= Weight(weights, o)
  {
    HeaviestFirstOf(CanteenObjects, weights);
  }

  lemma HeaviestFirstOf(objects: seq<string>, weights: map<string, real>)
    requires objects != []
    ensures StrictOrder(RealGreater) && var objs := SortBy(objects, WeightKey(weights), RealGreater);
            forall o :: o in objects ==> Weight(weights, objs[0]) >= Weight(weights, o)
  {
    SortedByWeight(objects, weights);
    var objs := SortBy(objects, WeightKey(weights), RealGreater);
    FirstIsGreatest(objs, objects, WeightKey(weights));
  }

  lemma SortedByWeight(objects: seq<string>, weights: map<string, real>)
    ensures StrictOrder(RealGreater) && var objs := SortBy(objects, WeightKey(weights), RealGreater);
            multiset(objs) == multiset(objects)
            && forall a, b :: 0 <= a < b < |objs| ==> Weight(weights, objs[a]) >= Weight(weights, objs[b])
  {
    RealOrders();
    SortByPermutation(objects, WeightKey(weights), RealGreater);
    SortBySorted(objects, WeightKey(weights), RealGreater);
  }

  /** The people are the roster, reordered so that scores never decrease. */
  lemma ByScoreOrder(names: seq<string>, history: seq<HistoryRow>, db: Db, ey: int)
    ensures var r := ByScore(names, history, db, ey);
            multiset(r) == multiset(names)
            && forall a, b :: 0 <= a < b < |r| ==> Score(history, db, r[a], ey) <= Score(history, db, r[b], ey)
  {
    RealOrders();
    SortByPermutation(names, ScoreKey(history, db, ey), RealLess);
    SortBySorted(names, ScoreKey(history, db, ey), RealLess);
  }

  /** The lowest score gets the heaviest object. */
  lemma LowestGetsHeaviest(names: seq<string>, history: seq<HistoryRow>, db: Db, ey: int)
    requires names != []
    ensures var plan := CanteenPlan(names, history, db, ey);
            (forall f :: f in names ==> Score(history, db, plan[0].0, ey) <= Score(history, db, f, ey))
            && (forall o :: o in CanteenObjects ==> Weight(db.weights, plan[0].1) >= Weight(db.weights, o))
  {
    var r := ByScore(names, history, db, ey);
    var objs := ObjectsByWeight(db.weights);
    assert CanteenPlan(names, history, db, ey)[0] == (r[0], objs[0]);
    ByScoreOrder(names, history, db, ey);
    assert forall a, b :: 0 <= a < b < |r| ==> ScoreKey(history, db, ey)(r[a]) <= ScoreKey(history, db, ey)(r[b]);
    FirstIsLeast(r, names, ScoreKey(history, db, ey));
    HeaviestFirst(db.weights);
  }

  /** Round-robin over six objects uses each of them once there are six people. */
  lemma RoundRobinCovers(sorted: seq<string>, objs: seq<string>)
    requires |objs| == 6 && |sorted| >= 6
    ensures forall o :: o in objs ==> exists i :: 0 <= i < |sorted| && RoundRobin(sorted, objs)[i].1 == o
  {
    forall o | o in objs ensures exists i :: 0 <= i < |sorted| && RoundRobin(sorted, objs)[i].1 == o {
      var k :| 0 <= k < |objs| && objs[k] == o;
      assert RoundRobin(sorted, objs)[k].1 == o;
    }
  }

  /** With six people or more every object is used. */
  lemma EveryObjectUsed(names: seq<string>, history: seq<HistoryRow>, db: Db, ey: int)
    requires |names| >= 6
    ensures var plan := CanteenPlan(names, history, db, ey);
            forall o :: o in CanteenObjects ==> exists i :: 0 <= i < |plan| && plan[i].1 == o
  {
    var objs := ObjectsByWeight(db.weights);
    var plan := CanteenPlan(names, history, db, ey);
    assert plan == RoundRobin(ByScore(names, history, db, ey), objs);
    RoundRobinCovers(ByScore(names, history, db, ey), objs);
    ObjectsByWeightOrder(db.weights);
    forall o | o in CanteenObjects ensures exists i :: 0 <= i < |plan| && plan[i].1 == o {
      Schedule.SameElements(objs, CanteenObjects, o);
      assert o in objs;
    }
  }

  // ---------------------------------------------------------------------------
  // Writes

  /** `SELECT COUNT(*) ... WHERE date = ? AND role = ? AND enrollment_year = ?` is positive. */
  predicate HasShift(shifts: map<ShiftKey, int>, today: string, role: string, ey: int) {
    exists k :: k in shifts && k.0 == today && k.1 == role && k.3 == ey
  }

  predicate HasCanteen(canteen: map<CanteenKey, string>, today: string, ey: int) {
    exists k :: k in canteen && k.0 == today && k.2 == ey
  }

  function ShiftRow(today: string, role: string, ey: int, a: (string, int)): HistoryRow {
    HistoryRow(a.0, today, role, Some(a.1), None, ey)
  }

  function CanteenRow(today: string, ey: int, a: (string, string)): HistoryRow {
    HistoryRow(a.0, today, CanteenRole, None, Some(a.1), ey)
  }

  /** The `INSERT OR REPLACE` and `INSERT INTO ... history` of each assignment, in order. */
  function WriteShifts(t: Tables, today: string, role: string, ey: int, xs: seq<(string, int)>): Tables
    decreases |xs|
  {
    if xs == [] then t
    else
      var u := WriteShifts(t, today, role, ey, xs[..|xs| - 1]);
      var a := xs[|xs| - 1];
      Tables(u.shifts[(today, role, a.0, ey) := a.1], u.canteen, u.history + [ShiftRow(today, role, ey, a)])
  }

  function WriteCanteen(t: Tables, today: string, ey: int, xs: seq<(string, string)>): Tables
    decreases |xs|
  {
    if xs == [] then t
    else
      var u := WriteCanteen(t, today, ey, xs[..|xs| - 1]);
      var a := xs[|xs| - 1];
      Tables(u.shifts, u.canteen[(today, a.0, ey) := a.1], u.history + [CanteenRow(today, ey, a)])
  }

  /** The shift writes append one history row per assignment, in order, and touch no
      canteen row. */
  lemma {:induction false} WriteShiftsHistory(t: Tables, today: string, role: string, ey: int, xs: seq<(string, int)>)
    ensures var u := WriteShifts(t, today, role, ey, xs);
            u.canteen == t.canteen
            && |u.history| == |t.history| + |xs| && u.history[..|t.history|] == t.history
            && forall i :: 0 <= i < |xs| ==> u.history[|t.history| + i] == ShiftRow(today, role, ey, xs[i])
    decreases |xs|
  {
    if xs != [] {
      var n := |xs| - 1;
      WriteShiftsHistory(t, today, role, ey, xs[..n]);
      assert forall i :: 0 <= i < n ==> xs[..n][i] == xs[i];
    }
  }

  /** Every assignment's key is written; no key is removed; added keys are this date, role
      and year. */
  lemma {:induction false} WriteShiftsKeys(t: Tables, today: string, role: string, ey: int, xs: seq<(string, int)>)
    ensures var u := WriteShifts(t, today, role, ey, xs);
            (forall k :: k in t.shifts ==> k in u.shifts)
            && (forall k :: k in u.shifts && k !in t.shifts ==> k.0 == today && k.1 == role && k.3 == ey)
            && forall i :: 0 <= i < |xs| ==> (today, role, xs[i].0, ey) in u.shifts
    decreases |xs|
  {
    if xs != [] {
      var n := |xs| - 1;
      WriteShiftsKeys(t, today, role, ey, xs[..n]);
      assert forall i :: 0 <= i < n ==> xs[..n][i] == xs[i];
    }
  }

  /** The canteen writes append one history row per assignment, in order, and touch no
      shift row. */
  lemma {:induction false} WriteCanteenHistory(t: Tables, today: string, ey: int, xs: seq<(string, string)>)
    ensures var u := WriteCanteen(t, today, ey, xs);
            u.shifts == t.shifts
            && |u.history| == |t.history| + |xs| && u.history[..|t.history|] == t.history
            && forall i :: 0 <= i < |xs| ==> u.history[|t.history| + i] == CanteenRow(today, ey, xs[i])
    decreases |xs|
  {
    if xs != [] {
      var n := |xs| - 1;
      WriteCanteenHistory(t, today, ey, xs[..n]);
      assert forall i :: 0 <= i < n ==> xs[..n][i] == xs[i];
    }
  }

  lemma {:induction false} WriteCanteenKeys(t: Tables, today: string, ey: int, xs: seq<(string, string)>)
    ensures var u := WriteCanteen(t, today, ey, xs);
            (forall k :: k in t.canteen ==> k in u.canteen)
            && (forall k :: k in u.canteen && k !in t.canteen ==> k.0 == today && k.2 == ey)
            && forall i :: 0 <= i < |xs| ==> (today, xs[i].0, ey) in u.canteen
    decreases |xs|
  {
    if xs != [] {
      var n := |xs| - 1;
      WriteCanteenKeys(t, today, ey, xs[..n]);
      assert forall i :: 0 <= i < n ==> xs[..n][i] == xs[i];
    }
  }

  // ---------------------------------------------------------------------------
  // One run

  /** One shift role for one year: skipped when that (date, role, year) already has
      assignments or nobody is on duty; otherwise the shuffled roster is assigned. */
  function StepShifts(t: Tables, db: Db, today: string, role: string, ey: int,
                      shuffle: seq<string> -> seq<string>): Tables
  {
    if HasShift(t.shifts, today, role, ey) then t
    else
      var people := Roster(db.schedule, today, role, ey);
      if people == [] then t
      else WriteShifts(t, today, role, ey, Assign(role, shuffle(people)))
  }

  /** The canteen for one year: skipped when that (date, year) already has assignments or
      nobody is on canteen duty. */
  function StepCanteen(t: Tables, db: Db, today: string, ey: int): Tables {
    if HasCanteen(t.canteen, today, ey) then t
    else
      var names := Roster(db.schedule, today, CanteenRole, ey);
      if names == [] then t
      else WriteCanteen(t, today, ey, CanteenPlan(names, t.history, db, ey))
  }

  function RunRoles(t: Tables, db: Db, today: string, ey: int, shuffle: seq<string> -> seq<string>,
                    roles: seq<string>): Tables
    decreases |roles|
  {
    if roles == [] then t
    else StepShifts(RunRoles(t, db, today, ey, shuffle, roles[..|roles| - 1]), db, today, roles[|roles| - 1], ey, shuffle)
  }

  function RunYear(t: Tables, db: Db, today: string, ey: int, shuffle: seq<string> -> seq<string>): Tables {
    StepCanteen(RunRoles(t, db, today, ey, shuffle, ShiftRoles), db, today, ey)
  }

  function RunYears(t: Tables, db: Db, today: string, shuffle: seq<string> -> seq<string>, years: seq<int>): Tables
    decreases |years|
  {
    if years == [] then t
    else RunYear(RunYears(t, db, today, shuffle, years[..|years| - 1]), db, today, years[|years| - 1], shuffle)
  }

  /** A run inside the window. */
  function RunDay(t: Tables, db: Db, today: string, shuffle: seq<string> -> seq<string>): Tables {
    RunYears(t, db, today, shuffle, Years(db.schedule, today))
  }

  // ---------------------------------------------------------------------------
  // What a run writes

  const DutyRoles: seq<string> := ["к", "гбр", "с"]

  /** u is t with rows appended and assignments added, all for today and one of the three
      distributed roles; nothing is removed. */
  predicate Grows(t: Tables, u: Tables, today: string) {
    && |t.history| <= |u.history| && u.history[..|t.history|] == t.history
    && (forall i :: |t.history| <= i < |u.history| ==> u.history[i].date == today && u.history[i].role in DutyRoles)
    && (forall k :: k in t.shifts ==> k in u.shifts)
    && (forall k :: k in u.shifts && k !in t.shifts ==> k.0 == today && k.1 in ShiftRoles)
    && (forall k :: k in t.canteen ==> k in u.canteen)
    && (forall k :: k in u.canteen && k !in t.canteen ==> k.0 == today)
  }

  lemma GrowsTransitive(t: Tables, u: Tables, w: Tables, today: string)
    requires Grows(t, u, today) && Grows(u, w, today)
    ensures Grows(t, w, today)
  {
    assert w.history[..|t.history|] == w.history[..|u.history|][..|t.history|];
    forall i | |t.history| <= i < |w.history| ensures w.history[i].date == today && w.history[i].role in DutyRoles {
      if i < |u.history| {
        assert w.history[i] == w.history[..|u.history|][i];
      }
    }
  }

  lemma StepShiftsGrows(t: Tables, db: Db, today: string, role: string, ey: int, shuffle: seq<string> -> seq<string>)
    requires role in ShiftRoles
    ensures Grows(t, StepShifts(t, db, today, role, ey, shuffle), today)
  {
    var people := Roster(db.schedule, today, role, ey);
    if !HasShift(t.shifts, today, role, ey) && people != [] {
      var xs := Assign(role, shuffle(people));
      var u := WriteShifts(t, today, role, ey, xs);
      assert StepShifts(t, db, today, role, ey, shuffle) == u;
      WriteShiftsHistory(t, today, role, ey, xs);
      WriteShiftsKeys(t, today, role, ey, xs);
      forall i | |t.history| <= i < |u.history| ensures u.history[i].date == today && u.history[i].role in DutyRoles {
        assert u.history[|t.history| + (i - |t.history|)] == ShiftRow(today, role, ey, xs[i - |t.history|]);
      }
    } else {
      assert t.history[..|t.history|] == t.history;
    }
  }

  lemma StepCanteenGrows(t: Tables, db: Db, today: string, ey: int)
    ensures Grows(t, StepCanteen(t, db, today, ey), today)
  {
    var names := Roster(db.schedule, today, CanteenRole, ey);
    if !HasCanteen(t.canteen, today, ey) && names != [] {
      var xs := CanteenPlan(names, t.history, db, ey);
      var u := WriteCanteen(t, today, ey, xs);
      assert StepCanteen(t, db, today, ey) == u;
      WriteCanteenHistory(t, today, ey, xs);
      WriteCanteenKeys(t, today, ey, xs);
      forall i | |t.history| <= i < |u.history| ensures u.history[i].date == today && u.history[i].role in DutyRoles {
        assert u.history[|t.history| + (i - |t.history|)] == CanteenRow(today, ey, xs[i - |t.history|]);
      }
    } else {
      assert t.history[..|t.history|] == t.history;
    }
  }

  lemma {:induction false} RunRolesGrows(t: Tables, db: Db, today: string, ey: int, shuffle: seq<string> -> seq<string>,
                                         roles: seq<string>)
    requires forall r :: r in roles ==> r in ShiftRoles
    ensures Grows(t, RunRoles(t, db, today, ey, shuffle, roles), today)
    decreases |roles|
  {
    if roles != [] {
      var n := |roles| - 1;
      var u := RunRoles(t, db, today, ey, shuffle, roles[..n]);
      assert forall r :: r in roles[..n] ==> r in roles;
      RunRolesGrows(t, db, today, ey, shuffle, roles[..n]);
      assert roles[n] in roles;
      StepShiftsGrows(u, db, today, roles[n], ey, shuffle);
      GrowsTransitive(t, u, RunRoles(t, db, today, ey, shuffle, roles), today);
    }
  }

  lemma {:induction false} RunYearsGrows(t: Tables, db: Db, today: string, shuffle: seq<string> -> seq<string>, years: seq<int>)
    ensures Grows(t, RunYears(t, db, today, shuffle, years), today)
    decreases |years|
  {
    if years == [] {
      assert t.history[..|t.history|] == t.history;
    } else {
      var n := |years| - 1;
      var u := RunYears(t, db, today, shuffle, years[..n]);
      RunYearsGrows(t, db, today, shuffle, years[..n]);
      RunYearGrows(u, db, today, years[n], shuffle);
      GrowsTransitive(t, u, RunYear(u, db, today, years[n], shuffle), today);
    }
  }

  /** A run only appends to the history and only adds today's assignments of the three
      distributed roles; no other role is ever distributed. */
  lemma RunDayGrows(t: Tables, db: Db, today: string, shuffle: seq<string> -> seq<string>)
    ensures Grows(t, RunDay(t, db, today, shuffle), today)
  {
    RunYearsGrows(t, db, today, shuffle, Years(db.schedule, today));
  }

  /** A distributed shift role appends one history row per person on its roster, with the
      same multiset of names. */
  lemma StepShiftsRows(t: Tables, db: Db, today: string, role: string, ey: int, shuffle: seq<string> -> seq<string>)
    requires IsShuffle(shuffle) && role in ShiftRoles && !HasShift(t.shifts, today, role, ey)
    ensures var u := StepShifts(t, db, today, role, ey, shuffle);
            var people := Roster(db.schedule, today, role, ey);
            |u.history| == |t.history| + |people|
            && multiset(Map(u.history[|t.history|..], HistoryFio)) == multiset(people)
  {
    var people := Roster(db.schedule, today, role, ey);
    if people != [] {
      var names := shuffle(people);
      var xs := Assign(role, names);
      var u := WriteShifts(t, today, role, ey, xs);
      assert StepShifts(t, db, today, role, ey, shuffle) == u;
      WriteShiftsHistory(t, today, role, ey, xs);
      assert |names| == |people| by {
        assert |multiset(names)| == |multiset(people)|;
      }
      AssignNames(role, names);
      forall i | 0 <= i < |xs| ensures Map(u.history[|t.history|..], HistoryFio)[i] == names[i] {
        assert u.history[|t.history|..][i] == u.history[|t.history| + i];
        assert Map(xs, AssignedFio)[i] == names[i];
      }
      assert Map(u.history[|t.history|..], HistoryFio) == names;
    }
  }

  function HistoryFio(h: HistoryRow): string { h.fio }

  /** The canteen appends one history row per person on its roster, with the same multiset
      of names. */
  lemma StepCanteenRows(t: Tables, db: Db, today: string, ey: int)
    requires !HasCanteen(t.canteen, today, ey)
    ensures var u := StepCanteen(t, db, today, ey);
            var names := Roster(db.schedule, today, CanteenRole, ey);
            |u.history| == |t.history| + |names|
            && multiset(Map(u.history[|t.history|..], HistoryFio)) == multiset(names)
  {
    var names := Roster(db.schedule, today, CanteenRole, ey);
    if names != [] {
      var sorted := ByScore(names, t.history, db, ey);
      var plan := RoundRobin(sorted, ObjectsByWeight(db.weights));
      assert StepCanteen(t, db, today, ey) == WriteCanteen(t, today, ey, plan);
      WriteCanteenNames(t, today, ey, plan);
      RoundRobinPeople(sorted, ObjectsByWeight(db.weights));
      ByScoreOrder(names, t.history, db, ey);
    } else {
      assert StepCanteen(t, db, today, ey) == t;
      assert t.history[|t.history|..] == [];
    }
  }

  /** The names of the rows a canteen plan appends are the plan's names, in order. */
  lemma WriteCanteenNames(t: Tables, today: string, ey: int, plan: seq<(string, string)>)
    ensures var u := WriteCanteen(t, today, ey, plan);
            |u.history| == |t.history| + |plan| && Map(u.history[|t.history|..], HistoryFio) == Map(plan, AssignedName)
  {
    var u := WriteCanteen(t, today, ey, plan);
    WriteCanteenHistory(t, today, ey, plan);
    NewRowsFio(t.history, u.history, plan, today, ey);
  }

  // ---------------------------------------------------------------------------
  // Each (date, role, year) once

  /** After a step with somebody on duty, that (date, role, year) has assignments. */
  lemma StepShiftsCovers(t: Tables, db: Db, today: string, role: string, ey: int, shuffle: seq<string> -> seq<string>)
    requires IsShuffle(shuffle) && role in ShiftRoles
    ensures ShiftCovered(StepShifts(t, db, today, role, ey, shuffle), db, today, role, ey)
  {
    var people := Roster(db.schedule, today, role, ey);
    if !HasShift(t.shifts, today, role, ey) && people != [] {
      var names := shuffle(people);
      assert |names| == |people| by {
        assert |multiset(names)| == |multiset(people)|;
      }
      var xs := Assign(role, names);
      assert StepShifts(t, db, today, role, ey, shuffle) == WriteShifts(t, today, role, ey, xs);
      WriteShiftsKeys(t, today, role, ey, xs);
      var k := (today, role, xs[0].0, ey);
      assert k in StepShifts(t, db, today, role, ey, shuffle).shifts;
    }
  }

  lemma StepCanteenCovers(t: Tables, db: Db, today: string, ey: int)
    ensures Roster(db.schedule, today, CanteenRole, ey) == [] || HasCanteen(StepCanteen(t, db, today, ey).canteen, today, ey)
  {
    var names := Roster(db.schedule, today, CanteenRole, ey);
    if !HasCanteen(t.canteen, today, ey) && names != [] {
      var plan := CanteenPlan(names, t.history, db, ey);
      assert StepCanteen(t, db, today, ey) == WriteCanteen(t, today, ey, plan);
      WriteCanteenKeys(t, today, ey, plan);
      var k := (today, plan[0].0, ey);
      assert k in StepCanteen(t, db, today, ey).canteen;
    }
  }

  /** Repeating a step changes nothing: the guard sees the first step's assignments. */
  lemma StepShiftsOnce(t: Tables, db: Db, today: string, role: string, ey: int, shuffle: seq<string> -> seq<string>)
    requires IsShuffle(shuffle) && role in ShiftRoles
    ensures var u := StepShifts(t, db, today, role, ey, shuffle);
            StepShifts(u, db, today, role, ey, shuffle) == u
  {
    StepShiftsCovers(t, db, today, role, ey, shuffle);
  }

  lemma StepCanteenOnce(t: Tables, db: Db, today: string, ey: int)
    ensures var u := StepCanteen(t, db, today, ey);
            StepCanteen(u, db, today, ey) == u
  {
    StepCanteenCovers(t, db, today, ey);
  }

  /** Every duty of year ey that has somebody on its roster today already has assignments. */
  predicate Covered(u: Tables, db: Db, today: string, ey: int) {
    && ShiftCovered(u, db, today, "к", ey)
    && ShiftCovered(u, db, today, "гбр", ey)
    && (Roster(db.schedule, today, CanteenRole, ey) == [] || HasCanteen(u.canteen, today, ey))
  }

  predicate ShiftCovered(u: Tables, db: Db, today: string, role: string, ey: int) {
    Roster(db.schedule, today, role, ey) == [] || HasShift(u.shifts, today, role, ey)
  }

  lemma ShiftCoveredPersists(t: Tables, u: Tables, db: Db, today: string, role: string, ey: int)
    requires Grows(t, u, today) && ShiftCovered(t, db, today, role, ey)
    ensures ShiftCovered(u, db, today, role, ey)
  {
    if HasShift(t.shifts, today, role, ey) {
      var k :| k in t.shifts && k.0 == today && k.1 == role && k.3 == ey;
      assert k in u.shifts;
    }
  }

  lemma CoveredPersists(t: Tables, u: Tables, db: Db, today: string, ey: int)
    requires Grows(t, u, today) && Covered(t, db, today, ey)
    ensures Covered(u, db, today, ey)
  {
    ShiftCoveredPersists(t, u, db, today, "к", ey);
    ShiftCoveredPersists(t, u, db, today, "гбр", ey);
    if HasCanteen(t.canteen, today, ey) {
      var k :| k in t.canteen && k.0 == today && k.2 == ey;
      assert k in u.canteen;
    }
  }

  lemma RunRolesShiftRoles(t: Tables, db: Db, today: string, ey: int, shuffle: seq<string> -> seq<string>)
    ensures RunRoles(t, db, today, ey, shuffle, ShiftRoles)
            == StepShifts(StepShifts(t, db, today, "к", ey, shuffle), db, today, "гбр", ey, shuffle)
  {
    assert ShiftRoles[..1] == ["к"];
    assert ShiftRoles[..1][..0] == [];
  }

  /** After a year's run all three of its duties are covered. */
  lemma RunYearCovers(t: Tables, db: Db, today: string, ey: int, shuffle: seq<string> -> seq<string>)
    requires IsShuffle(shuffle)
    ensures Covered(RunYear(t, db, today, ey, shuffle), db, today, ey)
  {
    var u1 := StepShifts(t, db, today, "к", ey, shuffle);
    var u2 := StepShifts(u1, db, today, "гбр", ey, shuffle);
    var u3 := StepCanteen(u2, db, today, ey);
    RunRolesShiftRoles(t, db, today, ey, shuffle);
    StepShiftsCovers(t, db, today, "к", ey, shuffle);
    StepShiftsCovers(u1, db, today, "гбр", ey, shuffle);
    StepCanteenCovers(u2, db, today, ey);
    StepShiftsGrows(u1, db, today, "гбр", ey, shuffle);
    StepCanteenGrows(u2, db, today, ey);
    GrowsTransitive(u1, u2, u3, today);
    ShiftCoveredPersists(u1, u3, db, today, "к", ey);
    ShiftCoveredPersists(u2, u3, db, today, "гбр", ey);
  }

  lemma RunYearGrows(t: Tables, db: Db, today: string, ey: int, shuffle: seq<string> -> seq<string>)
    ensures Grows(t, RunYear(t, db, today, ey, shuffle), today)
  {
    var v := RunRoles(t, db, today, ey, shuffle, ShiftRoles);
    RunRolesGrows(t, db, today, ey, shuffle, ShiftRoles);
    StepCanteenGrows(v, db, today, ey);
    GrowsTransitive(t, v, RunYear(t, db, today, ey, shuffle), today);
  }

  /** After a run over some years, each of them is covered. */
  lemma {:induction false} RunYearsCovers(t: Tables, db: Db, today: string, shuffle: seq<string> -> seq<string>,
                                          years: seq<int>, ey: int)
    requires IsShuffle(shuffle) && ey in years
    ensures Covered(RunYears(t, db, today, shuffle, years), db, today, ey)
    decreases |years|
  {
    var n := |years| - 1;
    var u := RunYears(t, db, today, shuffle, years[..n]);
    if years[n] == ey {
      RunYearCovers(u, db, today, ey, shuffle);
    } else {
      InPrefix(years, ey);
      RunYearsCovers(t, db, today, shuffle, years[..n], ey);
      RunYearKeepsCovered(u, db, today, years[n], ey, shuffle);
    }
  }

  lemma RunYearKeepsCovered(u: Tables, db: Db, today: string, y: int, ey: int, shuffle: seq<string> -> seq<string>)
    requires Covered(u, db, today, ey)
    ensures Covered(RunYear(u, db, today, y, shuffle), db, today, ey)
  {
    RunYearGrows(u, db, today, y, shuffle);
    CoveredPersists(u, RunYear(u, db, today, y, shuffle), db, today, ey);
  }

  lemma InPrefix(years: seq<int>, ey: int)
    requires ey in years && years[|years| - 1] != ey
    ensures ey in years[..|years| - 1]
  {
    var i :| 0 <= i < |years| && years[i] == ey;
    assert years[..|years| - 1][i] == ey;
  }

  /** A covered year's run changes nothing. */
  lemma CoveredRunYear(u: Tables, db: Db, today: string, ey: int, shuffle: seq<string> -> seq<string>)
    requires Covered(u, db, today, ey)
    ensures RunYear(u, db, today, ey, shuffle) == u
  {
    RunRolesShiftRoles(u, db, today, ey, shuffle);
  }

  lemma {:induction false} CoveredRunYears(u: Tables, db: Db, today: string, shuffle: seq<string> -> seq<string>,
                                           years: seq<int>)
    requires forall ey :: ey in years ==> Covered(u, db, today, ey)
    ensures RunYears(u, db, today, shuffle, years) == u
    decreases |years|
  {
    if years != [] {
      var n := |years| - 1;
      assert forall ey :: ey in years[..n] ==> ey in years;
      CoveredRunYears(u, db, today, shuffle, years[..n]);
      assert years[n] in years;
      CoveredRunYear(u, db, today, years[n], shuffle);
    }
  }

  /** Each (date, role, year) is distributed at most once: a second run on the same day,
      later in the window, changes nothing. */
  lemma RunDayOnce(t: Tables, db: Db, today: string, shuffle: seq<string> -> seq<string>)
    requires IsShuffle(shuffle)
    ensures RunDay(RunDay(t, db, today, shuffle), db, today, shuffle) == RunDay(t, db, today, shuffle)
  {
    var years := Years(db.schedule, today);
    var u := RunDay(t, db, today, shuffle);
    forall ey | ey in years ensures Covered(u, db, today, ey) {
      RunYearsCovers(t, db, today, shuffle, years, ey);
    }
    CoveredRunYears(u, db, today, shuffle, years);
  }

  // ---------------------------------------------------------------------------
  // The tables as a class

  class Distributor {
    const db: Db
    var shifts: map<ShiftKey, int>
    var canteen: map<CanteenKey, string>
    var history: seq<HistoryRow>

    constructor (db: Db, t: Tables)
      ensures this.db == db && State() == t
    {
      this.db := db;
      shifts := t.shifts;
      canteen := t.canteen;
      history := t.history;
    }

    function State(): Tables
      reads this
    {
      Tables(shifts, canteen, history)
    }

    /** `auto_distribute_duties`: nothing happens outside the window; inside it every year
        on duty today gets its two shift roles and its canteen, in that order. */
    method AutoDistribute(now: Tasks.DateTime, shuffle: seq<string> -> seq<string>)
      requires Tasks.ValidDateTime(now)
      modifies this
      ensures !InWindow(now.hour, now.minute) ==> State() == old(State())
      ensures InWindow(now.hour, now.minute) ==> State() == RunDay(old(State()), db, FormatDate(now.date), shuffle)
    {
      if now.hour != DistributionHour || now.minute < DistributionMinute || now.minute > DistributionMinute + 5 {
        return;
      }
      var today := FormatDate(now.date);
      var years := Years(db.schedule, today);
      DistributeYears(today, years, shuffle);
    }

    /** The loop over today's enrollment years. */
    method DistributeYears(today: string, years: seq<int>, shuffle: seq<string> -> seq<string>)
      modifies this
      ensures State() == RunYears(old(State()), db, today, shuffle, years)
    {
      for k := 0 to |years|
        invariant State() == RunYears(old(State()), db, today, shuffle, years[..k])
      {
        assert years[..k + 1][..k] == years[..k];
        DistributeYear(today, years[k], shuffle);
      }
      assert years[..|years|] == years;
    }

    /** One enrollment year: the shift roles in order, then the canteen. */
    method DistributeYear(today: string, ey: int, shuffle: seq<string> -> seq<string>)
      modifies this
      ensures State() == RunYear(old(State()), db, today, ey, shuffle)
    {
      for r := 0 to |ShiftRoles|
        invariant State() == RunRoles(old(State()), db, today, ey, shuffle, ShiftRoles[..r])
      {
        assert ShiftRoles[..r + 1][..r] == ShiftRoles[..r];
        DistributeShifts(today, ShiftRoles[r], ey, shuffle);
      }
      assert ShiftRoles[..|ShiftRoles|] == ShiftRoles;
      DistributeCanteen(today, ey);
    }

    /** One shift role of one year. */
    method DistributeShifts(today: string, role: string, ey: int, shuffle: seq<string> -> seq<string>)
      modifies this
      ensures State() == StepShifts(old(State()), db, today, role, ey, shuffle)
    {
      if HasShift(shifts, today, role, ey) {
        return;
      }
      var people := Roster(db.schedule, today, role, ey);
      if people == [] {
        return;
      }
      var names := shuffle(people);
      var assignments := BuildAssignments(role, names);
      WriteShiftRows(today, role, ey, assignments);
    }

    /** The shift `INSERT`s, one assignment at a time. */
    method WriteShiftRows(today: string, role: string, ey: int, assignments: seq<(string, int)>)
      modifies this
      ensures State() == WriteShifts(old(State()), today, role, ey, assignments)
    {
      for i := 0 to |assignments|
        invariant State() == WriteShifts(old(State()), today, role, ey, assignments[..i])
      {
        assert assignments[..i + 1][..i] == assignments[..i];
        var (fio, shift) := assignments[i];
        shifts := shifts[(today, role, fio, ey) := shift];
        history := history + [HistoryRow(fio, today, role, Some(shift), None, ey)];
      }
      assert assignments[..|assignments|] == assignments;
    }

    /** The `enumerate` loops that build the (fio, shift) list. */
    static method BuildAssignments(role: string, names: seq<string>) returns (assignments: seq<(string, int)>)
      ensures assignments == Assign(role, names)
    {
      assignments := [];
      if role == "к" {
        for i := 0 to |names|
          invariant |assignments| == i
          invariant forall j :: 0 <= j < i ==> assignments[j] == (names[j], CourseShift(j))
        {
          var shift := if i < 3 then i + 1 else 0;
          assignments := assignments + [(names[i], shift)];
        }
      } else if role == "гбр" {
        for i := 0 to |names|
          invariant |assignments| == i
          invariant forall j :: 0 <= j < i ==> assignments[j] == (names[j], GbrShift(j))
        {
          var shift := i / 2 + 1;
          assignments := assignments + [(names[i], shift)];
        }
      }
    }

    /** The canteen of one year. */
    method DistributeCanteen(today: string, ey: int)
      modifies this
      ensures State() == StepCanteen(old(State()), db, today, ey)
    {
      if HasCanteen(canteen, today, ey) {
        return;
      }
      var names := Roster(db.schedule, today, CanteenRole, ey);
      if names == [] {
        return;
      }
      var scores := ComputeScores(names, history, db, ey);
      RealOrders();
      var sortedNames := SortBy(names, (f: string) => if f in scores then scores[f] else 0.0, RealLess);
      SortByCongruent(names, (f: string) => if f in scores then scores[f] else 0.0, ScoreKey(history, db, ey), RealLess);
      assert sortedNames == ByScore(names, history, db, ey);
      WriteCanteenRows(today, ey, sortedNames, ObjectsByWeight(db.weights));
    }

    /** The canteen `INSERT`s: person i of the sorted list gets object `i % 6`. */
    method WriteCanteenRows(today: string, ey: int, sortedNames: seq<string>, objectsSorted: seq<string>)
      requires |objectsSorted| == 6
      modifies this
      ensures State() == WriteCanteen(old(State()), today, ey, RoundRobin(sortedNames, objectsSorted))
    {
      ghost var plan := RoundRobin(sortedNames, objectsSorted);
      for i := 0 to |sortedNames|
        invariant State() == WriteCanteen(old(State()), today, ey, plan[..i])
      {
        assert plan[..i + 1][..i] == plan[..i];
        var fio := sortedNames[i];
        var obj := objectsSorted[Slot(i)];
        canteen := canteen[(today, fio, ey) := obj];
        history := history + [HistoryRow(fio, today, CanteenRole, None, Some(obj), ey)];
      }
      assert plan[..|sortedNames|] == plan;
    }

    /** The `scores` loop: every name's score against the history as it is before the writes. */
    static method ComputeScores(names: seq<string>, history: seq<HistoryRow>, db: Db, ey: int)
      returns (scores: map<string, real>)
      ensures forall f :: f in scores <==> f in names
      ensures forall f :: f in scores ==> scores[f] == Score(history, db, f, ey)
    {
      scores := map[];
      for i := 0 to |names|
        invariant forall f :: f in scores <==> f in names[..i]
        invariant forall f :: f in scores ==> scores[f] == Score(history, db, f, ey)
      {
        assert names[..i + 1] == names[..i] + [names[i]];
        scores := scores[names[i] := Score(history, db, names[i], ey)];
      }
      assert names[..|names|] == names;
    }
  }

  /** Sorting by two keys that agree on every element gives the same list. */
  lemma SortByCongruent<T, K(!new)>(xs: seq<T>, k1: T -> K, k2: T -> K, less: (K, K) -> bool)
    requires StrictOrder(less)
    requires forall x :: x in xs ==> k1(x) == k2(x)
    ensures SortBy(xs, k1, less) == SortBy(xs, k2, less)
  {
    assert Map(xs, k1) == Map(xs, k2);
  }
}
