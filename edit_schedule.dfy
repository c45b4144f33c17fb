/** Manual schedule editing (handlers/edit_schedule.py): who may edit, the role chosen on a
    button, the record a deletion is confirmed for, and the change `execute_edit` makes to
    one group's list of one month, together with the bot's cached copy of the current
    month. The schedules are a dict month -> group -> list of records, written as lists of
    (key, value) items in dict order; loading and saving the file are left to Storage. */
module EditSchedule {
  import opened Strings
  import opened Sorting
  import opened Schedule
  import Storage

  type Groups = seq<(string, seq<Duty>)>
  type Schedules = seq<(string, Groups)>

  // ---------------------------------------------------------------------------
  // `can_edit_schedule`

  /** The roles that may edit. */
  const EditorRoles: seq<string> := ["admin", "assistant", "sergeant"]

  datatype Refusal = AccessDenied | NotEnoughRights

  datatype Access = Denied(reason: Refusal) | Allowed(role: string, group: Storage.Value)

  /** The editor entry of the user decides: none (or an empty one) denies access, a role
      outside the three editor roles denies rights, otherwise the role and group are
      returned. `editor['role']` and `editor['group']` raise KeyError when missing. */
  function CanEdit(editors: map<int, Storage.Record>, userId: int): Outcome<Access> {
    if userId !in editors || editors[userId] == [] then Ok(Denied(AccessDenied))
    else
      var role: Option<Storage.Value> := Storage.Get(editors[userId], "role");
      match role
      case None => Raised(KeyError)
      case Some(v) =>
        if !(v.Str? && v.s in EditorRoles) then Ok(Denied(NotEnoughRights))
        else
          var group: Option<Storage.Value> := Storage.Get(editors[userId], "group");
          match group
          case None => Raised(KeyError)
          case Some(g) => Ok(Allowed(v.s, g))
  }

  /** Editing is allowed exactly for a non-empty entry whose role is admin, assistant or
      sergeant and which names a group; the result carries that role and group. */
  lemma CanEditAllowed(editors: map<int, Storage.Record>, userId: int)
    ensures var o := CanEdit(editors, userId);
            (o.Ok? && o.value.Allowed?) <==>
              (userId in editors && editors[userId] != []
               && (var role := Storage.Get(editors[userId], "role");
                   role.Some? && role.value.Str? && role.value.s in EditorRoles)
               && Storage.Has(editors[userId], "group"))
    ensures var o := CanEdit(editors, userId);
            o.Ok? && o.value.Allowed? ==>
              Storage.Get(editors[userId], "role") == Some(Storage.Str(o.value.role))
              && o.value.role in EditorRoles
              && Storage.Get(editors[userId], "group") == Some(o.value.group)
    ensures CanEdit(editors, userId) == Ok(Denied(AccessDenied)) <==> userId !in editors || editors[userId] == []
  {
  }

  // ---------------------------------------------------------------------------
  // `save_role_and_confirm`

  const RolePrefix: string := "edit_role_"

  /** The role named by the button's callback data, or None when it is not one of the
      valid roles (the conversation then ends). The valid roles live in a module this
      model does not include, so they are a parameter. */
  function ChosenRole(data: string, validRoles: set<string>): (r: Option<string>)
    ensures r.Some? ==> r.value in validRoles
  {
    var role := RemoveAll(data, RolePrefix);
    if role in validRoles then Some(role) else None
  }

  /** The button made for a valid role gives back that role; a button for an unknown role
      is rejected. */
  lemma ChosenRoleOfButton(short: string, validRoles: set<string>)
    requires !Contains(short, RolePrefix)
    ensures ChosenRole(RolePrefix + short, validRoles) == if short in validRoles then Some(short) else None
  {
    var data := RolePrefix + short;
    assert data[..|RolePrefix|] == RolePrefix;
    assert data[|RolePrefix|..] == short;
    RemoveAllAbsent(short, RolePrefix);
  }

  // ---------------------------------------------------------------------------
  // Looking a record up: `item['fio'] == fio and item['date'] == date`

  /** A record the test can read: it has a fio, and a date when the fio is the one sought
      (the `and` does not look at the date otherwise). */
  predicate Readable(d: Duty, fio: string) {
    d.fio.Some? && (d.fio.value == fio ==> d.date.Some?)
  }

  /** The record for that person on that date. */
  predicate IsEntry(d: Duty, fio: string, date: string) {
    d.fio == Some(fio) && d.date == Some(date)
  }

  /** The comparison, raising KeyError on a missing key it reaches. */
  function Matches(d: Duty, fio: string, date: string): (r: Outcome<bool>)
    ensures r.Ok? <==> Readable(d, fio)
    ensures r.Ok? ==> (r.value <==> IsEntry(d, fio, date))
  {
    match d.fio
    case None => Raised(KeyError)
    case Some(f) =>
      if f != fio then Ok(false)
      else
        match d.date
        case None => Raised(KeyError)
        case Some(t) => Ok(t == date)
  }

  function Keep(fio: string, date: string): Duty -> bool {
    (d: Duty) => !IsEntry(d, fio, date)
  }

  /** `month_data = schedules.get(month, {})`, then `month_data.get(group, [])`. */
  function GroupData(schedules: Schedules, month: string, group: string): seq<Duty> {
    var groups: Option<Groups> := Storage.Get(schedules, month);
    match groups
    case None => []
    case Some(gs) =>
      var l: Option<seq<Duty>> := Storage.Get(gs, group);
      match l
      case None => []
      case Some(ds) => ds
  }

  // ---------------------------------------------------------------------------
  // `confirm_delete_duty`

  /** The first record for that person and date, found by the loop with `break`. */
  function FirstEntry(gd: seq<Duty>, fio: string, date: string): Outcome<Option<Duty>>
    decreases |gd|
  {
    if gd == [] then Ok(None)
    else
      match Matches(gd[0], fio, date)
      case Raised(e) => Raised(e)
      case Ok(m) => if m then Ok(Some(gd[0])) else FirstEntry(gd[1..], fio, date)
  }

  /** The loop finds the first record for that person and date, after reading every record
      before it; it reports none when every record is readable and none is the one sought. */
  lemma {:induction false} FirstEntryIsFirst(gd: seq<Duty>, fio: string, date: string)
    ensures var o := FirstEntry(gd, fio, date);
            o.Ok? && o.value.Some? ==>
              exists i :: 0 <= i < |gd| && gd[i] == o.value.value && IsEntry(gd[i], fio, date)
                          && forall j :: 0 <= j < i ==> Readable(gd[j], fio) && !IsEntry(gd[j], fio, date)
    ensures FirstEntry(gd, fio, date) == Ok(None) <==>
              forall j :: 0 <= j < |gd| ==> Readable(gd[j], fio) && !IsEntry(gd[j], fio, date)
    decreases |gd|
  {
    if gd != [] {
      FirstEntryIsFirst(gd[1..], fio, date);
      var o := FirstEntry(gd[1..], fio, date);
      if o.Ok? && o.value.Some? {
        var i :| 0 <= i < |gd[1..]| && gd[1..][i] == o.value.value && IsEntry(gd[1..][i], fio, date)
                 && forall j :: 0 <= j < i ==> Readable(gd[1..][j], fio) && !IsEntry(gd[1..][j], fio, date);
        assert forall j :: 1 <= j < i + 1 ==> gd[j] == gd[1..][j - 1];
        if Matches(gd[0], fio, date) == Ok(false) {
          assert gd[i + 1] == gd[1..][i];
        }
      }
      if forall j :: 0 <= j < |gd| ==> Readable(gd[j], fio) && !IsEntry(gd[j], fio, date) {
        assert forall j :: 0 <= j < |gd| - 1 ==> gd[1..][j] == gd[j + 1];
      }
      if forall j :: 0 <= j < |gd| - 1 ==> Readable(gd[1..][j], fio) && !IsEntry(gd[1..][j], fio, date) {
        assert forall j :: 1 <= j < |gd| ==> gd[j] == gd[1..][j - 1];
      }
    }
  }

  /** What `confirm_delete_duty` does: the role of the first matching record (KeyError when
      it has none), or None when there is no such record and the conversation ends. */
  method ConfirmDelete(schedules: Schedules, month: string, group: string, fio: string, date: string)
    returns (o: Outcome<Option<string>>)
    ensures o == match FirstEntry(GroupData(schedules, month, group), fio, date)
                 case Raised(e) => Raised(e)
                 case Ok(None) => Ok(None)
                 case Ok(Some(d)) => if d.role.None? then Raised(KeyError) else Ok(Some(d.role.value))
  {
    var groupData := GroupData(schedules, month, group);
    var found: Option<Duty> := None;
    var i := 0;
    while i < |groupData|
      invariant 0 <= i <= |groupData|
      invariant FirstEntry(groupData, fio, date) == FirstEntry(groupData[i..], fio, date)
      decreases |groupData| - i
    {
      var item := groupData[i];
      assert groupData[i..][1..] == groupData[i + 1..];
      var m := Matches(item, fio, date);
      if m.Raised? {
        return Raised(m.error);
      }
      if m.value {
        found := Some(item);
        break;
      }
      i := i + 1;
    }
    if found.None? {
      return Ok(None);
    }
    if found.value.role.None? {
      return Raised(KeyError);
    }
    return Ok(Some(found.value.role.value));
  }

  // ---------------------------------------------------------------------------
  // `execute_edit`

  /** `[d for d in group_data if not (d['fio'] == fio and d['date'] == date)]`. */
  function Remove(gd: seq<Duty>, fio: string, date: string): Outcome<seq<Duty>>
    decreases |gd|
  {
    if gd == [] then Ok([])
    else
      match Matches(gd[0], fio, date)
      case Raised(e) => Raised(e)
      case Ok(m) =>
        match Remove(gd[1..], fio, date)
        case Raised(e) => Raised(e)
        case Ok(rest) => Ok((if m then [] else [gd[0]]) + rest)
  }

  /** The comprehension succeeds exactly when every record is readable, and then keeps every
      record except those for that person and date, in order. */
  lemma {:induction false} RemoveIsFilter(gd: seq<Duty>, fio: string, date: string)
    ensures Remove(gd, fio, date).Ok? <==> forall i :: 0 <= i < |gd| ==> Readable(gd[i], fio)
    ensures Remove(gd, fio, date).Ok? ==> Remove(gd, fio, date).value == Filter(gd, Keep(fio, date))
    decreases |gd|
  {
    if gd != [] {
      RemoveIsFilter(gd[1..], fio, date);
      if forall i :: 0 <= i < |gd| ==> Readable(gd[i], fio) {
        forall j | 0 <= j < |gd| - 1 ensures Readable(gd[1..][j], fio) {
          assert gd[1..][j] == gd[j + 1];
        }
      } else {
        var i :| 0 <= i < |gd| && !Readable(gd[i], fio);
        if i > 0 {
          assert gd[1..][i - 1] == gd[i];
        }
      }
      if Remove(gd, fio, date).Ok? {
        forall i | 0 <= i < |gd| ensures Readable(gd[i], fio) {
          if i > 0 {
            assert gd[i] == gd[1..][i - 1];
          }
        }
      }
    }
  }

  /** Nothing was removed exactly when no record is the one sought. */
  lemma {:induction false} FilterKeepsAll<T(!new)>(xs: seq<T>, f: T -> bool)
    ensures |Filter(xs, f)| == |xs| <==> forall i :: 0 <= i < |xs| ==> f(xs[i])
    decreases |xs|
  {
    if xs != [] {
      FilterKeepsAll(xs[1..], f);
      if forall i :: 0 <= i < |xs| ==> f(xs[i]) {
        assert forall j :: 0 <= j < |xs| - 1 ==> xs[1..][j] == xs[j + 1];
      }
      if |Filter(xs, f)| == |xs| {
        forall i | 0 <= i < |xs| ensures f(xs[i]) {
          if i > 0 {
            assert xs[i] == xs[1..][i - 1];
          }
        }
      }
    }
  }

  /** `schedules[month][group] = l`: KeyError when the month is missing, a new or replaced
      group otherwise. */
  function SetGroup(schedules: Schedules, month: string, group: string, l: seq<Duty>): Outcome<Schedules> {
    var groups: Option<Groups> := Storage.Get(schedules, month);
    match groups
    case None => Raised(KeyError)
    case Some(gs) => Ok(Storage.Set(schedules, month, Storage.Set(gs, group, l)))
  }

  /** Only that group of that month changes, and it holds the new list. */
  lemma SetGroupFacts(schedules: Schedules, month: string, group: string, l: seq<Duty>, m: string, g: string)
    ensures SetGroup(schedules, month, group, l).Ok? <==> Storage.Has(schedules, month)
    ensures SetGroup(schedules, month, group, l).Ok? ==>
              var saved := SetGroup(schedules, month, group, l).value;
              (m != month ==> Storage.Get(saved, m) == Storage.Get(schedules, m))
              && (m == month ==> Storage.Has(saved, m)
                                 && GroupData(saved, m, g) == if g == group then l else GroupData(schedules, m, g))
  {
    var groups: Option<Groups> := Storage.Get(schedules, month);
    if groups.Some? {
      var gs := Storage.Set(groups.value, group, l);
      Storage.GetSet(schedules, month, gs, m);
      Storage.GetSet(groups.value, group, l, g);
    }
  }

  /** The record the editor adds: `{'fio': fio, 'date': date, 'role': role}`. */
  function NewDuty(fio: string, date: string, role: string): Duty {
    Duty(Some(fio), Some(date), Some(role), None, None)
  }

  predicate AllDated(ds: seq<Duty>) {
    forall i :: 0 <= i < |ds| ==> ds[i].date.Some?
  }

  /** What `execute_edit` ends with: an exception (nothing saved), a delete that found
      nothing (nothing saved), or the schedules handed to `save_all_schedules`. */
  datatype EditResult = Failed | NotFound | Done(saved: Schedules)

  /** The delete branch. */
  function Delete(schedules: Schedules, month: string, group: string, fio: string, date: string): EditResult {
    var groupData := GroupData(schedules, month, group);
    match Remove(groupData, fio, date)
    case Raised(_) => Failed
    case Ok(kept) =>
      if |kept| == |groupData| then NotFound
      else
        match SetGroup(schedules, month, group, kept)
        case Raised(_) => Failed
        case Ok(saved) => Done(saved)
  }

  /** The add branch: the old record for that person and date replaced by the new one, the
      list sorted by date (KeyError when a remaining record has no date), then stored. */
  function Add(schedules: Schedules, month: string, group: string, fio: string, date: string, role: string): EditResult {
    var groupData := GroupData(schedules, month, group);
    match Remove(groupData, fio, date)
    case Raised(_) => Failed
    case Ok(kept) =>
      var appended := kept + [NewDuty(fio, date, role)];
      if !AllDated(appended) then Failed
      else
        match SetGroup(schedules, month, group, SortByDate(appended))
        case Raised(_) => Failed
        case Ok(saved) => Done(saved)
  }

  /** Any action other than 'delete' adds. */
  function Edit(schedules: Schedules, action: string, fio: string, date: string, role: string,
                month: string, group: string): EditResult
  {
    if action == "delete" then Delete(schedules, month, group, fio, date)
    else Add(schedules, month, group, fio, date, role)
  }

  /** A delete stores the group without the records for that person and date and leaves every
      other group and month as it was; it finds nothing exactly when every record is readable
      and none is the one sought, and fails exactly when a record is not readable. */
  lemma DeleteResult(schedules: Schedules, month: string, group: string, fio: string, date: string,
                     m: string, g: string)
    ensures var gd := GroupData(schedules, month, group);
            Delete(schedules, month, group, fio, date).Failed? <==> exists i :: 0 <= i < |gd| && !Readable(gd[i], fio)
    ensures var gd := GroupData(schedules, month, group);
            Delete(schedules, month, group, fio, date).NotFound? <==>
              forall i :: 0 <= i < |gd| ==> Readable(gd[i], fio) && !IsEntry(gd[i], fio, date)
    ensures var r := Delete(schedules, month, group, fio, date);
            r.Done? ==>
              (m != month ==> Storage.Get(r.saved, m) == Storage.Get(schedules, m))
              && (m == month ==> GroupData(r.saved, m, g) ==
                                   if g == group then Filter(GroupData(schedules, month, group), Keep(fio, date))
                                   else GroupData(schedules, m, g))
  {
    var gd := GroupData(schedules, month, group);
    RemoveIsFilter(gd, fio, date);
    FilterKeepsAll(gd, Keep(fio, date));
    if Remove(gd, fio, date).Ok? {
      var kept := Remove(gd, fio, date).value;
      SetGroupFacts(schedules, month, group, kept, m, g);
      if |kept| != |gd| {
        assert gd != [];
        assert Storage.Has(schedules, month);
      }
    }
  }

  /** An add succeeds exactly when every record is readable, every record that stays has a
      date and the month exists; it never reports "not found". */
  lemma AddSucceeds(schedules: Schedules, month: string, group: string, fio: string, date: string, role: string)
    ensures var gd := GroupData(schedules, month, group);
            Add(schedules, month, group, fio, date, role).Done? <==>
              (forall i :: 0 <= i < |gd| ==> Readable(gd[i], fio))
              && AllDated(Filter(gd, Keep(fio, date))) && Storage.Has(schedules, month)
    ensures Add(schedules, month, group, fio, date, role) != NotFound
  {
    var gd := GroupData(schedules, month, group);
    RemoveIsFilter(gd, fio, date);
    if Remove(gd, fio, date).Ok? {
      var kept := Remove(gd, fio, date).value;
      var appended := kept + [NewDuty(fio, date, role)];
      AllDatedSnoc(kept, NewDuty(fio, date, role));
      SetGroupFacts(schedules, month, group, SortByDate(appended), month, group);
    }
  }

  lemma AllDatedSnoc(ds: seq<Duty>, d: Duty)
    requires d.date.Some?
    ensures AllDated(ds + [d]) <==> AllDated(ds)
  {
    assert forall i :: 0 <= i < |ds| ==> (ds + [d])[i] == ds[i];
  }

  /** A saved add changes only that group of that month, which becomes the kept records and
      the new one, sorted by date. */
  lemma AddChanges(schedules: Schedules, month: string, group: string, fio: string, date: string, role: string,
                   m: string, g: string)
    ensures var r := Add(schedules, month, group, fio, date, role);
            r.Done? ==>
              (m != month ==> Storage.Get(r.saved, m) == Storage.Get(schedules, m))
              && (m == month && g != group ==> GroupData(r.saved, m, g) == GroupData(schedules, m, g))
              && GroupData(r.saved, month, group)
                 == SortByDate(Filter(GroupData(schedules, month, group), Keep(fio, date)) + [NewDuty(fio, date, role)])
  {
    var gd := GroupData(schedules, month, group);
    RemoveIsFilter(gd, fio, date);
    if Remove(gd, fio, date).Ok? {
      var l := SortByDate(Remove(gd, fio, date).value + [NewDuty(fio, date, role)]);
      SetGroupFacts(schedules, month, group, l, m, g);
      SetGroupFacts(schedules, month, group, l, month, group);
    }
  }

  /** After an add the group holds exactly one record for that person and date, the new one
      with the chosen role; every other record is kept as often as before; and the list is
      in date order. */
  lemma AddedList(gd: seq<Duty>, fio: string, date: string, role: string)
    ensures var l := SortByDate(Filter(gd, Keep(fio, date)) + [NewDuty(fio, date, role)]);
            DateSorted(l)
            && NewDuty(fio, date, role) in l
            && (forall i :: 0 <= i < |l| && IsEntry(l[i], fio, date) ==> l[i] == NewDuty(fio, date, role))
            && (forall i, j :: 0 <= i < |l| && 0 <= j < |l| && IsEntry(l[i], fio, date) && IsEntry(l[j], fio, date) ==> i == j)
            && (forall d :: !IsEntry(d, fio, date) ==> multiset(l)[d] == multiset(gd)[d])
  {
    var nd := NewDuty(fio, date, role);
    var kept := Filter(gd, Keep(fio, date));
    var l := SortByDate(kept + [nd]);
    SortByDateSorted(kept + [nd]);
    AddedCounts(gd, fio, date, role);
    forall i | 0 <= i < |l| && IsEntry(l[i], fio, date) ensures l[i] == nd {
      EntryIsNew(gd, fio, date, role, l[i]);
    }
    forall i, j | 0 <= i < |l| && 0 <= j < |l| && IsEntry(l[i], fio, date) && IsEntry(l[j], fio, date)
      ensures i == j
    {
      if i != j {
        EntryIsNew(gd, fio, date, role, l[i]);
        EntryIsNew(gd, fio, date, role, l[j]);
        TwiceCounted(l, i, j);
      }
    }
  }

  /** The sorted list holds the new record once and every other record as often as the
      group did. */
  lemma AddedCounts(gd: seq<Duty>, fio: string, date: string, role: string)
    ensures var l := SortByDate(Filter(gd, Keep(fio, date)) + [NewDuty(fio, date, role)]);
            multiset(l)[NewDuty(fio, date, role)] == 1
            && forall d :: !IsEntry(d, fio, date) ==> multiset(l)[d] == multiset(gd)[d]
  {
    var nd := NewDuty(fio, date, role);
    var kept := Filter(gd, Keep(fio, date));
    var l := SortByDate(kept + [nd]);
    assert multiset(l) == multiset(kept) + multiset{nd};
    FilterCount(gd, Keep(fio, date), nd);
    forall d | !IsEntry(d, fio, date) ensures multiset(l)[d] == multiset(gd)[d] {
      FilterCount(gd, Keep(fio, date), d);
    }
  }

  /** The only record for that person and date in the sorted list is the new one. */
  lemma EntryIsNew(gd: seq<Duty>, fio: string, date: string, role: string, d: Duty)
    requires d in SortByDate(Filter(gd, Keep(fio, date)) + [NewDuty(fio, date, role)])
    requires IsEntry(d, fio, date)
    ensures d == NewDuty(fio, date, role)
  {
    var kept := Filter(gd, Keep(fio, date));
    var l := SortByDate(kept + [NewDuty(fio, date, role)]);
    assert d in multiset(l);
    if d != NewDuty(fio, date, role) {
      assert d in multiset(kept);
      FilterMember(gd, Keep(fio, date), d);
    }
  }

  /** A value at two positions occurs at least twice. */
  lemma TwiceCounted<T>(l: seq<T>, i: nat, j: nat)
    requires i < |l| && j < |l| && i != j && l[i] == l[j]
    ensures multiset(l)[l[i]] >= 2
  {
    var a, b := if i < j then i else j, if i < j then j else i;
    assert l == l[..a] + [l[a]] + l[a + 1..b] + [l[b]] + l[b + 1..];
  }

  /** Records with the same date keep their order from the list they were sorted from. */
  lemma AddedListStable(gd: seq<Duty>, fio: string, date: string, role: string, a: nat, b: nat)
    requires a < b <= |Filter(gd, Keep(fio, date))|
    ensures var xs := Filter(gd, Keep(fio, date)) + [NewDuty(fio, date, role)];
            var l := SortByDate(xs);
            |l| == |xs|
            && (DateKey(l[a]) == DateKey(l[b]) ==> exists i, j :: 0 <= i < j < |xs| && xs[i] == l[a] && xs[j] == l[b])
  {
    var xs := Filter(gd, Keep(fio, date)) + [NewDuty(fio, date, role)];
    StrLessIsOrder();
    SortByStable(xs, DateKey, StrLess, a, b);
    var p := Rank(Map(xs, DateKey), StrLess);
    if DateKey(SortByDate(xs)[a]) == DateKey(SortByDate(xs)[b]) {
      assert 0 <= p[a] < p[b] < |xs|;
    }
  }

  // ---------------------------------------------------------------------------
  // The bot's copy of the current month

  function GroupLists(groups: Groups): seq<seq<Duty>> {
    Map(groups, (e: (string, seq<Duty>)) => e.1)
  }

  /** `for g, duties in schedules[month].items(): full_list.extend(duties)`. */
  function MonthDuties(schedules: Schedules, month: string): seq<Duty> {
    var groups: Option<Groups> := Storage.Get(schedules, month);
    match groups
    case None => []
    case Some(gs) => Flatten(GroupLists(gs))
  }

  /** Every record of one group of the month is in the bot's flattened list. */
  lemma {:induction false} MonthDutiesHolds(gs: Groups, k: nat, d: Duty)
    requires k < |gs| && d in gs[k].1
    ensures d in Flatten(GroupLists(gs))
    decreases |gs|
  {
    var lists := GroupLists(gs);
    var n := |gs| - 1;
    assert lists[..n] == GroupLists(gs[..n]);
    if k < n {
      MonthDutiesHolds(gs[..n], k, d);
    }
  }

  class EditSession {
    /** The schedules as `load_all_schedules` returned them or as they were last passed to
        `save_all_schedules`; what that call writes to disk is not this value but Storage's
        save of it, which drops every month whose value is not a list. */
    var file: Schedules
    /** `bot_data.get('current_schedule')`. */
    var current: Option<string>
    /** `bot_data['duty_schedule']` and `bot_data['schedules']`. */
    var dutySchedule: seq<Duty>
    var cached: Schedules

    constructor (file: Schedules, current: Option<string>, dutySchedule: seq<Duty>, cached: Schedules)
      ensures this.file == file && this.current == current
      ensures this.dutySchedule == dutySchedule && this.cached == cached
    {
      this.file := file;
      this.current := current;
      this.dutySchedule := dutySchedule;
      this.cached := cached;
    }

    /** `execute_edit`: the file changes only when the edit is saved; the bot's copy follows
        it only when the edited month is the current one. */
    method ExecuteEdit(action: string, fio: string, date: string, role: string, month: string, group: string)
      returns (r: EditResult)
      modifies this
      ensures r == Edit(old(file), action, fio, date, role, month, group)
      ensures file == (if r.Done? then r.saved else old(file))
      ensures current == old(current)
      ensures r.Done? && current == Some(month) ==> dutySchedule == MonthDuties(r.saved, month) && cached == r.saved
      ensures !(r.Done? && current == Some(month)) ==> dutySchedule == old(dutySchedule) && cached == old(cached)
    {
      r := Edit(file, action, fio, date, role, month, group);
      if r.Done? {
        file := r.saved;
        if current == Some(month) {
          dutySchedule := FlattenMonth(r.saved, month);
          cached := r.saved;
        }
      }
    }

    /** The `extend` loop over the month's groups. */
    static method FlattenMonth(schedules: Schedules, month: string) returns (fullList: seq<Duty>)
      ensures fullList == MonthDuties(schedules, month)
    {
      var groups: Option<Groups> := Storage.Get(schedules, month);
      if groups.None? {
        return [];
      }
      var gs := groups.value;
      fullList := [];
      for i := 0 to |gs|
        invariant fullList == Flatten(GroupLists(gs[..i]))
      {
        assert GroupLists(gs[..i + 1])[..i] == GroupLists(gs[..i]);
        fullList := fullList + gs[i].1;
      }
      assert gs[..|gs|] == gs;
    }
  }
}
