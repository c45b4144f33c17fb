/** Queries over duty schedules (utils/schedule.py): a user's duties with their partners,
    everybody on duty on a date, the paged list of people, and per-month selections over
    all groups. A schedule is a list of records; all groups' schedules are a dict
    group -> month key -> list, written as lists of (key, value) items in dict order. */
module Schedule {
  import opened Strings
  import opened Sorting
  import opened Dates

  /** One duty record; a key the record does not have is None. */
  datatype Duty = Duty(fio: Option<string>, date: Option<string>, role: Option<string>,
                       group: Option<string>, gender: Option<string>)

  /** The exceptions the queries let through. */
  datatype Error = KeyError | IndexError

  datatype Outcome<T> = Ok(value: T) | Raised(error: Error)

  type Months = seq<(string, seq<Duty>)>
  type AllSchedules = seq<(string, Months)>

  /** `d.get(key, '')`. */
  function OrEmpty(o: Option<string>): string {
    if o.Some? then o.value else ""
  }

  /** The lower-cased first word of `s`, or None when `s` has none. */
  function Surname(s: string): Option<string> {
    match FirstWord(s)
    case None => None
    case Some(w) => Some(Lower(w))
  }

  /** Surname is what the code computes: `s.strip().split()[0].lower()`, which raises
      IndexError exactly when the stripped string is empty (and `split()` needs no strip). */
  lemma SurnameAsCode(s: string)
    ensures Surname(s).None? <==> Strip(s) == []
    ensures Surname(s).Some? ==> Words(Strip(s)) != [] && Surname(s).value == Lower(Words(Strip(s))[0])
    ensures Surname(Strip(s)) == Surname(s)
  {
    FirstWordOfWords(s);
    FirstWordOfWords(Strip(s));
    WordsOfStrip(s);
    StripEmptyNoWords(s);
  }

  function DateKey(d: Duty): string {
    OrEmpty(d.date)
  }

  /** Python's `<` on str is a strict total order. */
  lemma StrLessIsOrder()
    ensures StrictOrder(StrLess)
  {
    forall a: string ensures !StrLess(a, a) {
      StrLessIrreflexive(a);
    }
    forall a: string, b: string ensures StrLess(a, b) || a == b || StrLess(b, a) {
      StrLessTrichotomy(a, b);
    }
    forall a: string, b: string, c: string | StrLess(a, b) && StrLess(b, c) ensures StrLess(a, c) {
      StrLessTransitive(a, b, c);
    }
  }

  /** `sorted(ds, key=lambda x: x['date'])` for records that all have a date. */
  function SortByDate(ds: seq<Duty>): (r: seq<Duty>)
    ensures multiset(r) == multiset(ds)
  {
    StrLessIsOrder();
    SortByPermutation(ds, DateKey, StrLess);
    SortBy(ds, DateKey, StrLess)
  }

  predicate DateSorted(ds: seq<Duty>) {
    forall a, b :: 0 <= a < b < |ds| ==> !StrLess(DateKey(ds[b]), DateKey(ds[a]))
  }

  /** The records come out in ascending date order. */
  lemma SortByDateSorted(ds: seq<Duty>)
    ensures DateSorted(SortByDate(ds))
  {
    StrLessIsOrder();
    SortBySorted(ds, DateKey, StrLess);
  }

  lemma FilterDateSorted(ds: seq<Duty>, f: Duty -> bool)
    requires DateSorted(ds)
    ensures DateSorted(Filter(ds, f))
  {
    FilterKeepsOrder(ds, f, DateKey, StrLess);
  }

  // ---- get_duty_by_date ----

  function OnDate(target: string): Duty -> bool {
    (d: Duty) => d.date == Some(target)
  }

  /** `get_duty_by_date`: the records of that date, in schedule order. */
  function DutyByDate(target: string, data: seq<Duty>): (r: seq<Duty>)
    ensures forall d :: d in r <==> d in data && d.date == Some(target)
    ensures data == [] ==> r == []
  {
    if data == [] then [] else FilterMembers(data, OnDate(target)); Filter(data, OnDate(target))
  }

  /** Each record of the date is kept as often as it occurs, and no other record. */
  lemma DutyByDateCount(target: string, data: seq<Duty>, d: Duty)
    ensures multiset(DutyByDate(target, data))[d] == if d.date == Some(target) then multiset(data)[d] else 0
  {
    if data != [] { FilterCount(data, OnDate(target), d); }
  }

  /** The order of the schedule is kept: the answer for two schedules one after the other
      is the answers one after the other. */
  lemma DutyByDateAppend(target: string, a: seq<Duty>, b: seq<Duty>)
    ensures DutyByDate(target, a + b) == DutyByDate(target, a) + DutyByDate(target, b)
  {
    FilterAppend(a, b, OnDate(target));
    if a == [] { assert a + b == b; }
    if b == [] { assert a + b == a; }
  }

  // ---- get_my_duties_with_partners ----

  /** The record's fio is non-empty after stripping and its surname is ln. */
  predicate HasSurname(d: Duty, ln: string) {
    Surname(OrEmpty(d.fio)) == Some(ln)
  }

  function SurnameIs(ln: string): Duty -> bool {
    (d: Duty) => HasSurname(d, ln)
  }

  /** `d['date']` or `d['role']` / `duty['role']` would raise KeyError in the partner search. */
  predicate RowError(d: Duty, duty: Duty) {
    Surname(OrEmpty(d.fio)).Some?
    && (d.date.None? || (d.date == duty.date && (d.role.None? || duty.role.None?)))
  }

  /** Same date, same role, another surname. */
  predicate IsPartner(d: Duty, duty: Duty, ln: string) {
    d.fio.Some? && Surname(d.fio.value).Some? && Surname(d.fio.value).value != ln
    && d.date == duty.date && d.role == duty.role
  }

  function PartnerNames(data: seq<Duty>, duty: Duty, ln: string): (ps: seq<string>)
    ensures forall p :: p in ps ==> Surname(p).Some? && Surname(p).value != ln
    ensures forall d :: d in data && IsPartner(d, duty, ln) ==> d.fio.value in ps
    ensures forall p :: p in ps ==> exists d :: d in data && IsPartner(d, duty, ln) && d.fio.value == p
  {
    if data == [] then []
    else
      var d := data[|data| - 1];
      var front := data[..|data| - 1];
      assert data == front + [d];
      PartnerNames(front, duty, ln) + (if IsPartner(d, duty, ln) then [d.fio.value] else [])
  }

  function PartnerOf(duty: Duty, ln: string): Duty -> bool {
    (d: Duty) => IsPartner(d, duty, ln)
  }

  function FioText(d: Duty): string { OrEmpty(d.fio) }

  /** The partner list is the fio of every partner record, in the order of the records. */
  lemma {:induction false} PartnerNamesInOrder(data: seq<Duty>, duty: Duty, ln: string)
    ensures PartnerNames(data, duty, ln) == Map(Filter(data, PartnerOf(duty, ln)), FioText)
  {
    if data != [] {
      var d := data[|data| - 1];
      var front := data[..|data| - 1];
      assert data == front + [d];
      PartnerNamesInOrder(front, duty, ln);
      FilterAppend(front, [d], PartnerOf(duty, ln));
      var a, b := Filter(front, PartnerOf(duty, ln)), Filter([d], PartnerOf(duty, ln));
      assert [d][1..] == [];
      assert b == if IsPartner(d, duty, ln) then [d] else [];
      assert Map(a + b, FioText) == Map(a, FioText) + Map(b, FioText);
    }
  }

  /** The partner list of one duty, or the KeyError the search runs into. */
  function PartnerOutcome(data: seq<Duty>, duty: Duty, ln: string): Outcome<seq<string>> {
    if exists d :: d in data && RowError(d, duty) then Raised(KeyError)
    else Ok(PartnerNames(data, duty, ln))
  }

  /** The inner loop of `get_my_duties_with_partners`. */
  method FindPartners(data: seq<Duty>, duty: Duty, ln: string) returns (o: Outcome<seq<string>>)
    ensures o == PartnerOutcome(data, duty, ln)
  {
    var partners := [];
    for i := 0 to |data|
      invariant partners == PartnerNames(data[..i], duty, ln)
      invariant forall j :: 0 <= j < i ==> !RowError(data[j], duty)
    {
      var d := data[i];
      assert data[..i + 1][..i] == data[..i];
      if RowError(d, duty) {
        return Raised(KeyError);
      }
      if IsPartner(d, duty, ln) {
        partners := partners + [d.fio.value];
      }
    }
    assert data[..|data|] == data;
    return Ok(partners);
  }

  /** A result row: the duty, whether it is past, and its partners. */
  datatype DutyView = DutyView(duty: Duty, isPast: bool, partners: seq<string>)

  function ViewDuty(v: DutyView): Duty { v.duty }

  predicate DateParses(d: Duty) {
    ParseIsoDate(DateKey(d)).Some?
  }

  function Parses(): Duty -> bool {
    (d: Duty) => DateParses(d)
  }

  /** What a row promises: its date parses, `is_past` compares it with today, and its
      partners are exactly those of the partner search. */
  predicate ViewOf(v: DutyView, data: seq<Duty>, ln: string, now: Date) {
    ParseIsoDate(DateKey(v.duty)).Some?
    && v.isPast == DateLess(ParseIsoDate(DateKey(v.duty)).value, now)
    && PartnerOutcome(data, v.duty, ln) == Ok(v.partners)
  }

  /** The outer loop over the sorted duties: unparseable dates are skipped. */
  function Views(ds: seq<Duty>, data: seq<Duty>, ln: string, now: Date): (o: Outcome<seq<DutyView>>)
    ensures o.Ok? ==> forall k :: 0 <= k < |o.value| ==> ViewOf(o.value[k], data, ln, now) && o.value[k].duty in ds
    ensures o.Ok? ==> Map(o.value, ViewDuty) == Filter(ds, Parses())
  {
    if ds == [] then Ok([])
    else
      var d := ds[|ds| - 1];
      var front := ds[..|ds| - 1];
      assert ds == front + [d];
      FilterAppend(front, [d], Parses());
      var prev := Views(front, data, ln, now);
      if prev.Raised? then Raised(prev.error)
      else
        match ParseIsoDate(DateKey(d))
        case None => prev
        case Some(day) =>
          var ps := PartnerOutcome(data, d, ln);
          if ps.Raised? then Raised(ps.error)
          else
            var vs := prev.value + [DutyView(d, DateLess(day, now), ps.value)];
            assert Map(vs, ViewDuty) == Map(prev.value, ViewDuty) + [d];
            Ok(vs)
  }

  lemma {:induction false} ViewsRaisedStays(ds: seq<Duty>, n: nat, data: seq<Duty>, ln: string, now: Date)
    requires n <= |ds| && Views(ds[..n], data, ln, now).Raised?
    ensures Views(ds, data, ln, now) == Views(ds[..n], data, ln, now)
    decreases |ds| - n
  {
    if n < |ds| {
      var front := ds[..|ds| - 1];
      assert front[..n] == ds[..n];
      ViewsRaisedStays(front, n, data, ln, now);
    } else {
      assert ds[..n] == ds;
    }
  }

  /** `get_my_duties_with_partners` with today as a parameter. */
  function MyDuties(fio: string, data: seq<Duty>, now: Date): Outcome<seq<DutyView>> {
    if fio == [] || data == [] then Ok([])
    else
      match Surname(fio)
      case None => Raised(IndexError)
      case Some(ln) =>
        MineViews(data, ln, now)
  }

  /** The result once the surname is known. */
  function MineViews(data: seq<Duty>, ln: string, now: Date): Outcome<seq<DutyView>> {
    var mine := Filter(data, SurnameIs(ln));
    if mine == [] then Ok([])
    else if exists d :: d in mine && d.date.None? then Raised(KeyError)
    else Views(SortByDate(mine), data, ln, now)
  }

  method MyDutiesWithPartners(fio: string, data: seq<Duty>, now: Date) returns (o: Outcome<seq<DutyView>>)
    ensures o == MyDuties(fio, data, now)
  {
    if fio == [] || data == [] {
      return Ok([]);
    }
    var last := Surname(fio);
    if last.None? {
      return Raised(IndexError);
    }
    var ln := last.value;
    var mine := SelectMine(data, ln);
    if mine == [] {
      return Ok([]);
    }
    if exists d :: d in mine && d.date.None? {
      return Raised(KeyError);
    }
    o := BuildViews(SortByDate(mine), data, ln, now);
  }

  /** The filter loop of `get_my_duties_with_partners`. */
  method SelectMine(data: seq<Duty>, ln: string) returns (mine: seq<Duty>)
    ensures mine == Filter(data, SurnameIs(ln))
  {
    mine := [];
    for i := 0 to |data|
      invariant mine == Filter(data[..i], SurnameIs(ln))
    {
      FilterAppend(data[..i], [data[i]], SurnameIs(ln));
      assert data[..i + 1] == data[..i] + [data[i]];
      if HasSurname(data[i], ln) {
        mine := mine + [data[i]];
      }
    }
    assert data[..|data|] == data;
  }

  /** The loop over the sorted duties of `get_my_duties_with_partners`. */
  method BuildViews(sorted: seq<Duty>, data: seq<Duty>, ln: string, now: Date) returns (o: Outcome<seq<DutyView>>)
    ensures o == Views(sorted, data, ln, now)
  {
    var views := [];
    for k := 0 to |sorted|
      invariant Views(sorted[..k], data, ln, now) == Ok(views)
    {
      var d := sorted[k];
      ViewsStep(sorted, k, data, ln, now);
      var day := ParseIsoDate(DateKey(d));
      if day.Some? {
        var ps := FindPartners(data, d, ln);
        if ps.Raised? {
          ViewsRaisedStays(sorted, k + 1, data, ln, now);
          return Raised(ps.error);
        }
        views := views + [DutyView(d, DateLess(day.value, now), ps.value)];
      }
    }
    assert sorted[..|sorted|] == sorted;
    return Ok(views);
  }

  /** One more duty: a row for it when its date parses, after the rows of the earlier ones. */
  lemma ViewsStep(ds: seq<Duty>, k: nat, data: seq<Duty>, ln: string, now: Date)
    requires k < |ds| && Views(ds[..k], data, ln, now).Ok?
    ensures var d, prev := ds[k], Views(ds[..k], data, ln, now).value;
            Views(ds[..k + 1], data, ln, now)
            == match ParseIsoDate(DateKey(d))
               case None => Ok(prev)
               case Some(day) =>
                 var ps := PartnerOutcome(data, d, ln);
                 if ps.Raised? then Raised(ps.error) else Ok(prev + [DutyView(d, DateLess(day, now), ps.value)])
  {
    assert ds[..k + 1][..k] == ds[..k];
  }

  /** Once the surname is known and some duties are the user's, a result that is not an
      exception is the views of those duties sorted by date. */
  lemma MineViewsOk(data: seq<Duty>, ln: string, now: Date)
    requires MineViews(data, ln, now).Ok? && Filter(data, SurnameIs(ln)) != []
    ensures MineViews(data, ln, now) == Views(SortByDate(Filter(data, SurnameIs(ln))), data, ln, now)
  {
  }

  /** A row built from one of the user's duties. */
  lemma ViewOfMine(v: DutyView, sorted: seq<Duty>, data: seq<Duty>, ln: string, now: Date)
    requires multiset(sorted) == multiset(Filter(data, SurnameIs(ln)))
    requires v.duty in sorted && ViewOf(v, data, ln, now)
    ensures HasSurname(v.duty, ln) && v.duty in data
    ensures forall p :: p in v.partners ==> Surname(p) != Some(ln)
  {
    assert v.duty in multiset(sorted);
    FilterMember(data, SurnameIs(ln), v.duty);
    assert PartnerOutcome(data, v.duty, ln) == Ok(v.partners);
  }

  /** Only the user's own duties come back, each with a parseable date, the right `is_past`
      and the partners of the search, ordered by date; the user is never a partner. */
  lemma MyDutiesOnlyMine(fio: string, data: seq<Duty>, now: Date)
    requires MyDuties(fio, data, now).Ok? && MyDuties(fio, data, now).value != []
    ensures Surname(fio).Some?
    ensures var ln := Surname(fio).value;
            var vs := MyDuties(fio, data, now).value;
            (forall k :: 0 <= k < |vs| ==>
               HasSurname(vs[k].duty, ln) && vs[k].duty in data && ViewOf(vs[k], data, ln, now)
               && forall p :: p in vs[k].partners ==> Surname(p) != Some(ln))
            && (forall a, b :: 0 <= a < b < |vs| ==> !StrLess(DateKey(vs[b].duty), DateKey(vs[a].duty)))
  {
    var ln := Surname(fio).value;
    assert MyDuties(fio, data, now) == MineViews(data, ln, now);
    var mine := Filter(data, SurnameIs(ln));
    MineViewsOk(data, ln, now);
    var sorted := SortByDate(mine);
    SortByDateSorted(mine);
    var vs := Views(sorted, data, ln, now).value;
    forall k | 0 <= k < |vs|
      ensures HasSurname(vs[k].duty, ln) && vs[k].duty in data
      ensures forall p :: p in vs[k].partners ==> Surname(p) != Some(ln)
    {
      ViewOfMine(vs[k], sorted, data, ln, now);
    }
    FilterDateSorted(sorted, Parses());
    var m := Map(vs, ViewDuty);
    forall a, b | 0 <= a < b < |vs| ensures !StrLess(DateKey(vs[b].duty), DateKey(vs[a].duty)) {
      assert m[a] == vs[a].duty && m[b] == vs[b].duty;
    }
  }

  /** Every duty of the user with a parseable date is reported. */
  lemma MyDutiesComplete(fio: string, data: seq<Duty>, now: Date, d: Duty)
    requires MyDuties(fio, data, now).Ok? && fio != [] && Surname(fio).Some?
    requires d in data && HasSurname(d, Surname(fio).value) && ParseIsoDate(DateKey(d)).Some?
    ensures exists k :: 0 <= k < |MyDuties(fio, data, now).value| && MyDuties(fio, data, now).value[k].duty == d
  {
    var ln := Surname(fio).value;
    var mine := Filter(data, SurnameIs(ln));
    FilterMember(data, SurnameIs(ln), d);
    assert MyDuties(fio, data, now) == MineViews(data, ln, now);
    MineViewsOk(data, ln, now);
    var sorted := SortByDate(mine);
    assert d in multiset(sorted);
    var vs := Views(sorted, data, ln, now).value;
    FilterMember(sorted, Parses(), d);
    assert d in Map(vs, ViewDuty);
    ViewIndex(vs, d);
  }

  lemma ViewIndex(vs: seq<DutyView>, d: Duty)
    requires d in Map(vs, ViewDuty)
    ensures exists k :: 0 <= k < |vs| && vs[k].duty == d
  {
    var m := Map(vs, ViewDuty);
    var k :| 0 <= k < |m| && m[k] == d;
    assert vs[k].duty == d;
  }

  // ---- get_full_schedule_pages ----

  /** The fio values that are present and non-empty, in schedule order. */
  function FioNames(data: seq<Duty>): (r: seq<string>)
    ensures forall d :: d in data && d.fio.Some? && d.fio.value != [] ==> d.fio.value in r
    ensures forall x :: x in r ==> x != []
  {
    if data == [] then []
    else
      var d := data[|data| - 1];
      var front := data[..|data| - 1];
      assert data == front + [d];
      FioNames(front) + (if d.fio.Some? && d.fio.value != [] then [d.fio.value] else [])
  }

  predicate Distinct<T(==)>(xs: seq<T>) {
    forall i, j :: 0 <= i < j < |xs| ==> xs[i] != xs[j]
  }

  /** The first occurrence of each element. */
  function Dedup<T(==,!new)>(xs: seq<T>): (r: seq<T>)
    ensures Distinct(r)
    ensures forall x :: x in r <==> x in xs
  {
    if xs == [] then []
    else
      var front := Dedup(xs[..|xs| - 1]);
      var x := xs[|xs| - 1];
      assert xs == xs[..|xs| - 1] + [x];
      if x in front then front else front + [x]
  }

  lemma {:induction false} DistinctCount<T>(xs: seq<T>, v: T)
    requires Distinct(xs)
    ensures multiset(xs)[v] <= 1
  {
    if xs != [] {
      var front := xs[..|xs| - 1];
      assert xs == front + [xs[|xs| - 1]];
      DistinctCount(front, v);
      if v == xs[|xs| - 1] {
        assert v !in front;
      }
    }
  }

  lemma SameElements<T>(xs: seq<T>, ys: seq<T>, x: T)
    requires multiset(xs) == multiset(ys)
    ensures x in xs <==> x in ys
  {
    assert x in xs <==> x in multiset(xs);
    assert x in ys <==> x in multiset(ys);
  }

  lemma DistinctOfPermutation<T>(xs: seq<T>, ys: seq<T>)
    requires Distinct(xs) && multiset(xs) == multiset(ys)
    ensures Distinct(ys)
  {
    forall i, j | 0 <= i < j < |ys| ensures ys[i] != ys[j] {
      if ys[i] == ys[j] {
        assert ys == ys[..j] + ys[j..];
        assert ys[i] in ys[..j];
        assert ys[j] in ys[j..];
        assert multiset(ys)[ys[i]] >= 2;
        DistinctCount(xs, ys[i]);
      }
    }
  }

  function Id(s: string): string { s }

  /** `sorted(set(d['fio'] for d in data if d.get('fio')))`. */
  function Fios(data: seq<Duty>): seq<string> {
    StrLessIsOrder();
    SortBy(Dedup(FioNames(data)), Id, StrLess)
  }

  /** The names are the distinct present fio values, in strictly increasing order. */
  lemma FiosSortedSet(data: seq<Duty>)
    ensures var f := Fios(data);
            Distinct(f)
            && (forall a, b :: 0 <= a < b < |f| ==> StrLess(f[a], f[b]))
            && (forall x :: x in f <==> x in FioNames(data))
  {
    var names := Dedup(FioNames(data));
    StrLessIsOrder();
    var f := Fios(data);
    SortByPermutation(names, Id, StrLess);
    SortBySorted(names, Id, StrLess);
    DistinctOfPermutation(names, f);
    forall x ensures x in f <==> x in names {
      SameElements(f, names, x);
    }
    forall a, b | 0 <= a < b < |f| ensures StrLess(f[a], f[b]) {
      assert !StrLess(Id(f[b]), Id(f[a]));
      StrLessTrichotomy(f[a], f[b]);
    }
  }

  /** A Python slice bound: negative counts from the end, then clipped to 0..n. */
  function SliceBound(i: int, n: nat): (b: nat)
    ensures b <= n
    ensures i >= 0 ==> b == if i < n then i else n
  {
    if i < 0 then (if i + n < 0 then 0 else i + n) else if i > n then n else i
  }

  /** `xs[i:j]`. */
  function PySlice<T>(xs: seq<T>, i: int, j: int): seq<T> {
    var a, b := SliceBound(i, |xs|), SliceBound(j, |xs|);
    if a < b then xs[a..b] else []
  }

  datatype PageEntry = PageEntry(fio: string, duties: seq<Duty>)
  datatype Pages = Pages(data: seq<PageEntry>, current: int, total: int)

  function FioIs(person: string): Duty -> bool {
    (d: Duty) => d.fio == Some(person)
  }

  function EntryFor(data: seq<Duty>): string -> PageEntry {
    (person: string) => PageEntry(person, Filter(data, FioIs(person)))
  }

  function EntryName(e: PageEntry): string { e.fio }

  /** The names on page `page`. */
  function PageNames(data: seq<Duty>, page: int, perPage: int): seq<string> {
    PySlice(Fios(data), page * perPage, page * perPage + perPage)
  }

  /** The page count: `(n + per - 1) // per`, the least t with t * per >= n. */
  function PageCount(n: nat, per: int): (t: int)
    requires per > 0
    ensures t >= 0 && t * per >= n && (t - 1) * per < n
  {
    var t := (n + per - 1) / per;
    var m := (n + per - 1) % per;
    assert n + per - 1 == t * per + m;
    assert (t - 1) * per == t * per - per;
    t
  }

  /** `get_full_schedule_pages`. A zero page size raises ZeroDivisionError in the source. */
  function FullPages(data: seq<Duty>, page: int, perPage: int): (r: Pages)
    requires perPage > 0
    ensures data == [] ==> r == Pages([], 0, 1)
    ensures data != [] ==> r.current == page
                           && r.total * perPage >= |Fios(data)| > (r.total - 1) * perPage
                           && Map(r.data, EntryName) == PageNames(data, page, perPage)
  {
    if data == [] then Pages([], 0, 1)
    else
      var f := Fios(data);
      var names := PageNames(data, page, perPage);
      EntryNames(data, names);
      var t := PageCount(|f|, perPage);
      assert t * perPage >= |f| > (t - 1) * perPage;
      Pages(Map(names, EntryFor(data)), page, t)
  }

  lemma EntryNames(data: seq<Duty>, names: seq<string>)
    ensures Map(Map(names, EntryFor(data)), EntryName) == names
  {
  }

  /** Each entry of a page is one of the names, with exactly that person's records. */
  lemma FullPagesEntries(data: seq<Duty>, page: int, perPage: int, k: nat)
    requires perPage > 0 && k < |FullPages(data, page, perPage).data|
    ensures var e := FullPages(data, page, perPage).data[k];
            e.fio in Fios(data) && forall d :: d in e.duties <==> d in data && d.fio == Some(e.fio)
  {
    var f := Fios(data);
    var names := PageNames(data, page, perPage);
    var e := FullPages(data, page, perPage).data[k];
    assert e == EntryFor(data)(names[k]);
    var s, t := SliceBound(page * perPage, |f|), SliceBound(page * perPage + perPage, |f|);
    assert names == f[s..t];
    assert names[k] == f[s + k];
    forall d ensures d in e.duties <==> d in data && d.fio == Some(e.fio) {
      FilterMember(data, FioIs(names[k]), d);
    }
  }

  method FullSchedulePages(data: seq<Duty>, page: int, perPage: int) returns (r: Pages)
    requires perPage > 0
    ensures r == FullPages(data, page, perPage)
  {
    if data == [] {
      return Pages([], 0, 1);
    }
    var fios := Fios(data);
    var totalPages := PageCount(|fios|, perPage);
    var start := page * perPage;
    var end := start + perPage;
    var pageData := PageEntries(data, PySlice(fios, start, end));
    return Pages(pageData, page, totalPages);
  }

  /** The loop that builds one entry per name of the page. */
  method PageEntries(data: seq<Duty>, pageFios: seq<string>) returns (pageData: seq<PageEntry>)
    ensures pageData == Map(pageFios, EntryFor(data))
  {
    pageData := [];
    for i := 0 to |pageFios|
      invariant pageData == Map(pageFios[..i], EntryFor(data))
    {
      var person := pageFios[i];
      var duties := Filter(data, FioIs(person));
      assert pageFios[..i + 1] == pageFios[..i] + [person];
      pageData := pageData + [PageEntry(person, duties)];
    }
    assert pageFios[..|pageFios|] == pageFios;
  }

  lemma MulMono(a: int, b: int, c: int)
    requires a <= b && c > 0
    ensures a * c <= b * c
  {
  }

  /** The only multiple of a positive number strictly between its negation and itself is 0. */
  lemma SmallMultiple(x: int, per: int)
    requires per > 0 && -per < x * per < per
    ensures x == 0
  {
    if x >= 1 {
      MulMono(1, x, per);
    } else if x <= -1 {
      MulMono(x, -1, per);
    }
  }

  lemma DivUnique(k: int, per: int, p: int)
    requires per > 0 && p * per <= k < p * per + per
    ensures p == k / per
  {
    var q, m := k / per, k % per;
    assert k == q * per + m;
    assert (q - p) * per == q * per - p * per;
    SmallMultiple(q - p, per);
  }

  /** Each name is on exactly one page: name k of the sorted list is on page k / perPage. */
  lemma OnExactlyOnePage(data: seq<Duty>, perPage: int, k: nat, page: int)
    requires perPage > 0 && k < |Fios(data)| && page >= 0
    ensures Fios(data)[k] in PageNames(data, page, perPage) <==> page == k / perPage
  {
    FiosSortedSet(data);
    OnExactlyOnePageOf(Fios(data), perPage, k, page);
  }

  lemma OnExactlyOnePageOf(f: seq<string>, per: int, k: nat, page: int)
    requires per > 0 && k < |f| && page >= 0 && Distinct(f)
    ensures f[k] in PySlice(f, page * per, page * per + per) <==> page == k / per
  {
    OnPageOf(f, per, k);
    if f[k] in PySlice(f, page * per, page * per + per) {
      OnlyOnPageOf(f, per, k, page);
    }
  }

  /** The page of every name is one of the `total` pages. */
  lemma NamePageInRange(data: seq<Duty>, perPage: int, k: nat)
    requires perPage > 0 && data != [] && k < |Fios(data)|
    ensures 0 <= k / perPage < FullPages(data, 0, perPage).total
  {
    PageBelow(k, perPage, FullPages(data, 0, perPage).total);
  }

  lemma OnPageOf(f: seq<string>, per: int, k: nat)
    requires per > 0 && k < |f|
    ensures f[k] in PySlice(f, k / per * per, k / per * per + per)
  {
    var page, m := k / per, k % per;
    assert k == page * per + m;
    MulMono(0, page, per);
    var s, e := SliceBound(page * per, |f|), SliceBound(page * per + per, |f|);
    assert s == page * per;
    assert s <= k < e;
    assert f[s..e][k - s] == f[k];
  }

  lemma OnlyOnPageOf(f: seq<string>, per: int, k: nat, page: int)
    requires per > 0 && k < |f| && page >= 0 && Distinct(f)
    requires f[k] in PySlice(f, page * per, page * per + per)
    ensures page == k / per
  {
    MulMono(0, page, per);
    var s, e := SliceBound(page * per, |f|), SliceBound(page * per + per, |f|);
    var names := PySlice(f, page * per, page * per + per);
    assert s < e && names == f[s..e];
    var i :| 0 <= i < |names| && names[i] == f[k];
    assert f[s + i] == f[k];
    assert s + i == k;
    DivUnique(k, per, page);
  }

  lemma PageBelow(k: nat, per: int, total: int)
    requires per > 0 && k < total * per
    ensures 0 <= k / per < total
  {
    var q, m := k / per, k % per;
    assert k == q * per + m;
    if q >= total {
      MulMono(total, q, per);
    }
  }



  // ---- get_duty_by_date_all_groups ----

  /** The records of that date in all months of one group, month by month. */
  function MonthsOnDate(months: Months, date: string): (r: seq<Duty>)
    ensures forall d :: d in r ==> d.date == Some(date)
  {
    if months == [] then []
    else
      var front := months[..|months| - 1];
      var here := Filter(months[|months| - 1].1, OnDate(date));
      FilterMembers(months[|months| - 1].1, OnDate(date));
      MonthsOnDate(front, date) + here
  }

  /** A month gives nothing iff none of its records is on that date. */
  lemma FilterOnDateEmpty(xs: seq<Duty>, date: string)
    ensures Filter(xs, OnDate(date)) == [] <==> forall k :: 0 <= k < |xs| ==> xs[k].date != Some(date)
  {
    var here := Filter(xs, OnDate(date));
    if here != [] {
      FilterMember(xs, OnDate(date), here[0]);
    }
    forall k | 0 <= k < |xs| && xs[k].date == Some(date) ensures here != [] {
      FilterMember(xs, OnDate(date), xs[k]);
    }
  }

  /** A group's months give something iff one of them has a record on that date. */
  lemma {:induction false} MonthsOnDateEmpty(months: Months, date: string)
    ensures MonthsOnDate(months, date) == [] <==>
            forall j, k :: 0 <= j < |months| && 0 <= k < |months[j].1| ==> months[j].1[k].date != Some(date)
  {
    if months != [] {
      var front := months[..|months| - 1];
      var last := months[|months| - 1].1;
      MonthsOnDateEmpty(front, date);
      FilterOnDateEmpty(last, date);
      assert MonthsOnDate(months, date) == MonthsOnDate(front, date) + Filter(last, OnDate(date));
      assert forall j :: 0 <= j < |front| ==> front[j] == months[j];
    }
  }

  /** `get_duty_by_date_all_groups` as a list of its (group, records) items. */
  function AllGroupsOnDate(all: AllSchedules, date: string): (r: seq<(string, seq<Duty>)>)
    ensures forall i :: 0 <= i < |r| ==> r[i].1 != [] && (forall d :: d in r[i].1 ==> d.date == Some(date))
  {
    if all == [] then []
    else
      var last := all[|all| - 1];
      var here := MonthsOnDate(last.1, date);
      var prev := AllGroupsOnDate(all[..|all| - 1], date);
      var r := prev + (if here != [] then [(last.0, here)] else []);
      assert forall i :: 0 <= i < |prev| ==> r[i] == prev[i];
      r
  }

  predicate HasKey(r: seq<(string, seq<Duty>)>, group: string) {
    exists i :: 0 <= i < |r| && r[i].0 == group
  }

  predicate GroupHasDate(all: AllSchedules, group: string, date: string) {
    exists g :: 0 <= g < |all| && all[g].0 == group && MonthsOnDate(all[g].1, date) != []
  }

  lemma {:induction false} AllGroupsKeys(all: AllSchedules, date: string, group: string)
    ensures HasKey(AllGroupsOnDate(all, date), group) <==> GroupHasDate(all, group, date)
  {
    if all != [] {
      AllGroupsKeys(all[..|all| - 1], date, group);
      HasKeyStep(all, date, group);
      GroupHasDateStep(all, date, group);
    }
  }

  /** The last group adds its key exactly when it has a record on that date. */
  lemma HasKeyStep(all: AllSchedules, date: string, group: string)
    requires all != []
    ensures var last := all[|all| - 1];
            HasKey(AllGroupsOnDate(all, date), group)
            <==> HasKey(AllGroupsOnDate(all[..|all| - 1], date), group)
                 || (last.0 == group && MonthsOnDate(last.1, date) != [])
  {
    var last := all[|all| - 1];
    var here := MonthsOnDate(last.1, date);
    var prev := AllGroupsOnDate(all[..|all| - 1], date);
    var r := AllGroupsOnDate(all, date);
    assert r == prev + (if here != [] then [(last.0, here)] else []);
    if HasKey(prev, group) {
      var i :| 0 <= i < |prev| && prev[i].0 == group;
      assert r[i] == prev[i];
    }
    if HasKey(r, group) && !HasKey(prev, group) {
      var i :| 0 <= i < |r| && r[i].0 == group;
      assert i >= |prev|;
    }
    if last.0 == group && here != [] {
      assert r[|prev|] == (last.0, here);
    }
  }

  lemma GroupHasDateStep(all: AllSchedules, date: string, group: string)
    requires all != []
    ensures var last := all[|all| - 1];
            GroupHasDate(all, group, date)
            <==> GroupHasDate(all[..|all| - 1], group, date)
                 || (last.0 == group && MonthsOnDate(last.1, date) != [])
  {
    var front := all[..|all| - 1];
    if GroupHasDate(front, group, date) {
      var g :| 0 <= g < |front| && front[g].0 == group && MonthsOnDate(front[g].1, date) != [];
      assert all[g] == front[g];
    }
    if GroupHasDate(all, group, date) && !GroupHasDate(front, group, date) {
      var g :| 0 <= g < |all| && all[g].0 == group && MonthsOnDate(all[g].1, date) != [];
      assert g == |all| - 1;
    }
  }

  /** A group gets a key iff one of its months has a record on that date. */
  lemma AllGroupsKeyIff(all: AllSchedules, date: string, group: string)
    ensures HasKey(AllGroupsOnDate(all, date), group)
            <==> exists g, j, k :: 0 <= g < |all| && all[g].0 == group && 0 <= j < |all[g].1|
                                  && 0 <= k < |all[g].1[j].1| && all[g].1[j].1[k].date == Some(date)
  {
    AllGroupsKeys(all, date, group);
    forall g | 0 <= g < |all| {
      MonthsOnDateEmpty(all[g].1, date);
    }
  }

  method DutyByDateAllGroups(date: string, all: AllSchedules) returns (result: seq<(string, seq<Duty>)>)
    ensures result == AllGroupsOnDate(all, date)
  {
    result := [];
    for g := 0 to |all|
      invariant result == AllGroupsOnDate(all[..g], date)
    {
      var (groupName, schedules) := all[g];
      var found := GroupOnDate(schedules, date);
      assert all[..g + 1][..g] == all[..g];
      if found != [] {
        result := result + [(groupName, found)];
      }
    }
    assert all[..|all|] == all;
  }

  /** The inner loop of `get_duty_by_date_all_groups`, over one group's months. */
  method GroupOnDate(schedules: Months, date: string) returns (found: seq<Duty>)
    ensures found == MonthsOnDate(schedules, date)
  {
    found := [];
    for m := 0 to |schedules|
      invariant found == MonthsOnDate(schedules[..m], date)
    {
      assert schedules[..m + 1][..m] == schedules[..m];
      var dutiesOnDate := Filter(schedules[m].1, OnDate(date));
      found := found + dutiesOnDate;
    }
    assert schedules[..|schedules|] == schedules;
  }

  // ---- get_duties_for_user_in_month / get_duties_by_role_in_month ----

  /** `group_data.get(month_key, [])`. */
  function MonthGet(months: Months, key: string): seq<Duty> {
    if months == [] then []
    else if months[0].0 == key then months[0].1
    else MonthGet(months[1..], key)
  }

  /** The month's records of every group, group by group. */
  function MonthItems(all: AllSchedules, key: string): seq<Duty> {
    if all == [] then [] else MonthItems(all[..|all| - 1], key) + MonthGet(all[|all| - 1].1, key)
  }

  lemma {:induction false} MonthItemsPrefix(all: AllSchedules, key: string, n: nat)
    requires n <= |all|
    ensures forall d :: d in MonthItems(all[..n], key) ==> d in MonthItems(all, key)
    decreases |all| - n
  {
    if n < |all| {
      var front := all[..|all| - 1];
      assert front[..n] == all[..n];
      MonthItemsPrefix(front, key, n);
    } else {
      assert all[..n] == all;
    }
  }

  lemma MonthItemsStep(all: AllSchedules, key: string, g: nat)
    requires g < |all|
    ensures MonthItems(all[..g + 1], key) == MonthItems(all[..g], key) + MonthGet(all[g].1, key)
  {
    assert all[..g + 1][..g] == all[..g];
  }

  /** `get_duties_for_user_in_month`: the user's records of that month in all groups, by
      date. A record whose fio has no word makes `split()[0]` raise IndexError. */
  function UserMonth(fio: string, key: string, all: AllSchedules): (o: Outcome<seq<Duty>>)
    ensures o.Ok? ==> Surname(fio).Some?
                      && multiset(o.value) == multiset(Filter(MonthItems(all, key), SurnameIs(Surname(fio).value)))
                      && DateSorted(o.value)
  {
    match Surname(fio)
    case None => Raised(IndexError)
    case Some(ln) =>
      var items := MonthItems(all, key);
      if exists d :: d in items && Surname(OrEmpty(d.fio)).None? then Raised(IndexError)
      else
        var mine := Filter(items, SurnameIs(ln));
        if exists d :: d in mine && d.date.None? then Raised(KeyError)
        else
          SortByDateSorted(mine);
          Ok(SortByDate(mine))
  }

  method DutiesForUserInMonth(fio: string, key: string, all: AllSchedules) returns (o: Outcome<seq<Duty>>)
    ensures o == UserMonth(fio, key, all)
  {
    var last := Surname(fio);
    if last.None? {
      return Raised(IndexError);
    }
    var ln := last.value;
    var duties := [];
    for g := 0 to |all|
      invariant duties == Filter(MonthItems(all[..g], key), SurnameIs(ln))
      invariant forall d :: d in MonthItems(all[..g], key) ==> Surname(OrEmpty(d.fio)).Some?
    {
      var monthData := MonthGet(all[g].1, key);
      MonthItemsStep(all, key, g);
      var ok, part := UserRowsOfMonth(monthData, ln);
      if !ok {
        MonthItemsPrefix(all, key, g + 1);
        return Raised(IndexError);
      }
      FilterAppend(MonthItems(all[..g], key), monthData, SurnameIs(ln));
      duties := duties + part;
    }
    assert all[..|all|] == all;
    if exists d :: d in duties && d.date.None? {
      return Raised(KeyError);
    }
    return Ok(SortByDate(duties));
  }

  /** The inner loop of `get_duties_for_user_in_month` over one group's month: the user's
      records, or failure where a record's fio has no word. */
  method UserRowsOfMonth(monthData: seq<Duty>, ln: string) returns (ok: bool, part: seq<Duty>)
    ensures ok <==> forall d :: d in monthData ==> Surname(OrEmpty(d.fio)).Some?
    ensures ok ==> part == Filter(monthData, SurnameIs(ln))
  {
    part := [];
    for i := 0 to |monthData|
      invariant part == Filter(monthData[..i], SurnameIs(ln))
      invariant forall d :: d in monthData[..i] ==> Surname(OrEmpty(d.fio)).Some?
    {
      var item := monthData[i];
      assert monthData[..i + 1] == monthData[..i] + [item];
      FilterAppend(monthData[..i], [item], SurnameIs(ln));
      var s := Surname(OrEmpty(item.fio));
      if s.None? {
        return false, part;
      }
      if s.value == ln {
        part := part + [item];
      }
    }
    assert monthData[..|monthData|] == monthData;
    return true, part;
  }

  function RoleIs(role: string): Duty -> bool {
    (d: Duty) => d.role == Some(role)
  }

  /** `get_duties_by_role_in_month`: records of that month whose role equals the stripped,
      lower-cased role, by date. */
  function RoleMonth(role: string, key: string, all: AllSchedules): (o: Outcome<seq<Duty>>)
    ensures o.Ok? ==> multiset(o.value) == multiset(Filter(MonthItems(all, key), RoleIs(Lower(Strip(role)))))
                      && DateSorted(o.value)
                      && forall d :: d in o.value ==> d.role == Some(Lower(Strip(role)))
  {
    var r := Lower(Strip(role));
    var chosen := Filter(MonthItems(all, key), RoleIs(r));
    if exists d :: d in chosen && d.date.None? then Raised(KeyError)
    else
      var s := SortByDate(chosen);
      SortByDateSorted(chosen);
      forall d | d in s ensures d.role == Some(r) {
        assert d in multiset(chosen);
        FilterMember(MonthItems(all, key), RoleIs(r), d);
      }
      Ok(s)
  }

  method DutiesByRoleInMonth(role: string, key: string, all: AllSchedules) returns (o: Outcome<seq<Duty>>)
    ensures o == RoleMonth(role, key, all)
  {
    var r := Lower(Strip(role));
    var result := [];
    for g := 0 to |all|
      invariant result == Filter(MonthItems(all[..g], key), RoleIs(r))
    {
      var monthData := MonthGet(all[g].1, key);
      MonthItemsStep(all, key, g);
      var part := RoleRowsOfMonth(monthData, r);
      FilterAppend(MonthItems(all[..g], key), monthData, RoleIs(r));
      result := result + part;
    }
    assert all[..|all|] == all;
    if exists d :: d in result && d.date.None? {
      return Raised(KeyError);
    }
    return Ok(SortByDate(result));
  }

  /** The inner loop of `get_duties_by_role_in_month` over one group's month. */
  method RoleRowsOfMonth(monthData: seq<Duty>, r: string) returns (part: seq<Duty>)
    ensures part == Filter(monthData, RoleIs(r))
  {
    part := [];
    for i := 0 to |monthData|
      invariant part == Filter(monthData[..i], RoleIs(r))
    {
      var item := monthData[i];
      assert monthData[..i + 1] == monthData[..i] + [item];
      FilterAppend(monthData[..i], [item], RoleIs(r));
      if item.role == Some(r) {
        part := part + [item];
      }
    }
    assert monthData[..|monthData|] == monthData;
  }

  // ---- is_female_duty_schedule ----

  const FemaleKeywords: seq<string> := ["жен", "девушки", "девочка", "ж"]

  /** `is_female_duty_schedule`: decided by the first record only. */
  function IsFemale(data: seq<Duty>): (b: bool)
    ensures data == [] ==> !b
    ensures data != [] ==>
              (b <==> (exists kw :: kw in FemaleKeywords && Contains(Lower(OrEmpty(data[0].group)), kw))
                      || data[0].gender == Some("female"))
  {
    if data == [] then false
    else
      var group := Lower(OrEmpty(data[0].group));
      if exists kw :: kw in FemaleKeywords && Contains(group, kw) then true
      else data[0].gender == Some("female")
  }

  lemma {:induction false} ContainsFirstChar(s: string, w: string)
    requires w != [] && Contains(s, w)
    ensures Contains(s, [w[0]])
    decreases |s|
  {
    if StartsWith(s, w) {
      assert s[..1] == [w[0]];
    } else {
      ContainsFirstChar(s[1..], w);
    }
  }

  /** "жен" is covered by "ж": the test is the same as looking for "ж", "девушки" or
      "девочка". */
  lemma IsFemaleKeywords(data: seq<Duty>)
    requires data != []
    ensures var g := Lower(OrEmpty(data[0].group));
            IsFemale(data) <==> Contains(g, "ж") || Contains(g, "девушки") || Contains(g, "девочка")
                                || data[0].gender == Some("female")
  {
    var g := Lower(OrEmpty(data[0].group));
    if Contains(g, "жен") {
      ContainsFirstChar(g, "жен");
      assert "жен"[0] == 'ж';
      assert ["жен"[0]] == "ж";
    }
    assert FemaleKeywords[3] == "ж";
    assert FemaleKeywords[1] == "девушки";
    assert FemaleKeywords[2] == "девочка";
  }
}
