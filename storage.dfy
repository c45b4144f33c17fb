/** Schedule storage rules (utils/storage.py) without the JSON file: the clean-up applied to
    every record on save and on load, the month key of a schedule, and one user's duties as
    the Mini App receives them. A JSON object is a list of (key, value) items in insertion
    order; a month value or a list element that is not a list or an object is kept as an
    opaque "other" so the skipping rules can be stated. "Now" is a parameter. */
module Storage {
  import opened Strings
  import opened Sorting
  import opened Dates
  import Schedule

  /** The scalar values a record field holds. */
  datatype Value = Str(s: string) | Int(i: int) | Bool(b: bool) | Null

  /** Python truthiness. */
  predicate Truthy(v: Value) {
    match v
    case Str(s) => s != []
    case Int(i) => i != 0
    case Bool(b) => b
    case Null => false
  }

  /** `str(v)`. */
  function PyStr(v: Value): string {
    match v
    case Str(s) => s
    case Int(i) => IntToString(i)
    case Bool(b) => if b then "True" else "False"
    case Null => "None"
  }

  /** A dict, as its items in insertion order. */
  type Dict<V> = seq<(string, V)>
  type Record = Dict<Value>

  predicate KeysDistinct<V>(d: Dict<V>) {
    forall i, j :: 0 <= i < j < |d| ==> d[i].0 != d[j].0
  }

  /** `d.get(k)`. */
  function Get<V>(d: Dict<V>, k: string): Option<V> {
    if d == [] then None else if d[0].0 == k then Some(d[0].1) else Get(d[1..], k)
  }

  predicate Has<V>(d: Dict<V>, k: string) {
    Get(d, k).Some?
  }

  /** `d[k] = v`: an existing key keeps its place, a new key goes last. */
  function Set<V>(d: Dict<V>, k: string, v: V): (r: Dict<V>)
    ensures Has(d, k) ==> |r| == |d|
    ensures !Has(d, k) ==> r == d + [(k, v)]
  {
    if d == [] then [(k, v)]
    else if d[0].0 == k then [(k, v)] + d[1..]
    else [d[0]] + Set(d[1..], k, v)
  }

  /** `del d[k]`. */
  function Del<V>(d: Dict<V>, k: string): Dict<V> {
    if d == [] then [] else if d[0].0 == k then Del(d[1..], k) else [d[0]] + Del(d[1..], k)
  }

  function KeyList<V>(d: Dict<V>): (ks: seq<string>)
    ensures |ks| == |d|
  {
    if d == [] then [] else [d[0].0] + KeyList(d[1..])
  }

  /** Reading back what was just written. */
  lemma {:induction false} GetSet<V>(d: Dict<V>, k: string, v: V, k2: string)
    ensures Get(Set(d, k, v), k2) == if k2 == k then Some(v) else Get(d, k2)
  {
    if d != [] && d[0].0 != k {
      GetSet(d[1..], k, v, k2);
    }
  }

  lemma {:induction false} GetDel<V>(d: Dict<V>, k: string, k2: string)
    ensures Get(Del(d, k), k2) == if k2 == k then None else Get(d, k2)
  {
    if d != [] {
      GetDel(d[1..], k, k2);
    }
  }

  lemma {:induction false} GetSnoc<V>(d: Dict<V>, k: string, v: V, k2: string)
    ensures Get(d + [(k, v)], k2) == if Has(d, k2) then Get(d, k2) else if k2 == k then Some(v) else None
  {
    if d != [] {
      assert (d + [(k, v)])[1..] == d[1..] + [(k, v)];
      GetSnoc(d[1..], k, v, k2);
    }
  }

  lemma {:induction false} KeyListSnoc<V>(d: Dict<V>, k: string, v: V)
    ensures KeyList(d + [(k, v)]) == KeyList(d) + [k]
  {
    if d != [] {
      assert (d + [(k, v)])[1..] == d[1..] + [(k, v)];
      KeyListSnoc(d[1..], k, v);
    }
  }

  lemma {:induction false} HasKeyList<V>(d: Dict<V>, k: string)
    ensures Has(d, k) <==> k in KeyList(d)
  {
    if d != [] {
      HasKeyList(d[1..], k);
    }
  }

  // ---------------------------------------------------------------------------
  // Save: `save_all_schedules`

  const StringFields: seq<string> := ["fio", "date", "group_name", "group", "gender"]

  /** The value `save_all_schedules` stores for one field: a string role stripped and
      lower-cased, the five text fields as strings (a falsy value as ""), anything else as is. */
  function CleanValue(k: string, v: Value): Value {
    if k == "role" && v.Str? then Str(Lower(Strip(v.s)))
    else if k in StringFields then Str(if Truthy(v) then PyStr(v) else "")
    else v
  }

  /** The `for k, v in item.items()` loop that fills `clean_item`. */
  function CleanFields(item: Record): Record
    decreases |item|
  {
    if item == [] then []
    else
      var k, v := item[|item| - 1].0, item[|item| - 1].1;
      Set(CleanFields(item[..|item| - 1]), k, CleanValue(k, v))
  }

  /** The two user_id rules shared by save and load: a `telegram_id` is copied to a missing
      `user_id`, and a `user_id` is always stored as its stripped string. */
  function UserIdFix(c: Record, telegram: Option<Value>): Record {
    var c2 := if telegram.Some? && !Has(c, "user_id") then Set(c, "user_id", Str(PyStr(telegram.value))) else c;
    if Has(c2, "user_id") then Set(c2, "user_id", Str(Strip(PyStr(Get(c2, "user_id").value)))) else c2
  }

  /** One record as `save_all_schedules` writes it. */
  function SaveItem(item: Record): Record {
    UserIdFix(CleanFields(item), Get(item, "telegram_id"))
  }

  /** A month's list element: an object, or anything else. */
  datatype Item = Obj(rec: Record) | OtherItem
  /** A month's value: a list, or anything else. */
  datatype Month = List(items: seq<Item>) | OtherMonth

  /** `safe_data`: the cleaned objects of the list; other elements are skipped. */
  function SaveItems(items: seq<Item>): seq<Record>
    decreases |items|
  {
    if items == [] then []
    else
      var last := items[|items| - 1];
      SaveItems(items[..|items| - 1]) + (if last.Obj? then [SaveItem(last.rec)] else [])
  }

  /** `safe_schedules`: one entry per month whose value is a list, under the stripped key; a
      later month with the same stripped key replaces the earlier one's records. */
  function SaveAll(schedules: Dict<Month>): Dict<seq<Record>>
    decreases |schedules|
  {
    if schedules == [] then []
    else
      var front := SaveAll(schedules[..|schedules| - 1]);
      var key, m := schedules[|schedules| - 1].0, schedules[|schedules| - 1].1;
      if m.List? then Set(front, Strip(key), SaveItems(m.items)) else front
  }

  lemma {:induction false} GetCleanFields(item: Record, k: string)
    requires KeysDistinct(item)
    ensures Get(CleanFields(item), k) == match Get(item, k)
                                         case None => None
                                         case Some(v) => Some(CleanValue(k, v))
    decreases |item|
  {
    if item != [] {
      var front := item[..|item| - 1];
      var kl, vl := item[|item| - 1].0, item[|item| - 1].1;
      assert item == front + [(kl, vl)];
      assert KeysDistinct(front);
      GetCleanFields(front, k);
      GetSet(CleanFields(front), kl, CleanValue(kl, vl), k);
      GetSnoc(front, kl, vl, k);
      if k == kl {
        HasKeyList(front, kl);
        KeyNotInFront(item);
      }
    }
  }

  /** In a dict with distinct keys, the last key does not occur before it. */
  lemma KeyNotInFront(item: Record)
    requires KeysDistinct(item) && item != []
    ensures item[|item| - 1].0 !in KeyList(item[..|item| - 1])
  {
    var front := item[..|item| - 1];
    forall j | 0 <= j < |front| ensures front[j].0 != item[|item| - 1].0 {
      assert front[j] == item[j];
    }
    NotInKeyList(front, item[|item| - 1].0);
  }

  lemma {:induction false} NotInKeyList<V>(d: Dict<V>, k: string)
    requires forall j :: 0 <= j < |d| ==> d[j].0 != k
    ensures k !in KeyList(d)
  {
    if d != [] {
      assert forall j :: 0 <= j < |d[1..]| ==> d[1..][j].0 == d[j + 1].0;
      NotInKeyList(d[1..], k);
    }
  }

  /** Cleaning keeps the keys and their order. */
  lemma {:induction false} CleanFieldsKeys(item: Record)
    requires KeysDistinct(item)
    ensures KeyList(CleanFields(item)) == KeyList(item)
    decreases |item|
  {
    if item != [] {
      var front := item[..|item| - 1];
      var kl, vl := item[|item| - 1].0, item[|item| - 1].1;
      assert item == front + [(kl, vl)];
      assert KeysDistinct(front);
      CleanFieldsKeys(front);
      KeyNotInFront(item);
      HasKeyList(CleanFields(front), kl);
      KeyListSnoc(CleanFields(front), kl, CleanValue(kl, vl));
      KeyListSnoc(front, kl, vl);
    }
  }

  /** What the user_id rules leave in a record. */
  lemma UserIdFixFacts(c: Record, telegram: Option<Value>, k: string)
    ensures k != "user_id" ==> Get(UserIdFix(c, telegram), k) == Get(c, k)
    ensures Get(UserIdFix(c, telegram), "user_id")
            == if Has(c, "user_id") then Some(Str(Strip(PyStr(Get(c, "user_id").value))))
               else if telegram.Some? then Some(Str(Strip(PyStr(telegram.value))))
               else None
  {
    var c2 := if telegram.Some? && !Has(c, "user_id") then Set(c, "user_id", Str(PyStr(telegram.value))) else c;
    if telegram.Some? && !Has(c, "user_id") {
      GetSet(c, "user_id", Str(PyStr(telegram.value)), k);
      GetSet(c, "user_id", Str(PyStr(telegram.value)), "user_id");
    }
    if Has(c2, "user_id") {
      GetSet(c2, "user_id", Str(Strip(PyStr(Get(c2, "user_id").value))), k);
      GetSet(c2, "user_id", Str(Strip(PyStr(Get(c2, "user_id").value))), "user_id");
    }
  }

  /** On save every field other than user_id holds its cleaned value (role stripped and
      lower-cased when it is a string, the five text fields stringified with falsy as "",
      the rest unchanged), and no field appears or disappears. */
  lemma SaveItemField(item: Record, k: string)
    requires KeysDistinct(item) && k != "user_id"
    ensures Get(SaveItem(item), k) == match Get(item, k)
                                      case None => None
                                      case Some(v) => Some(CleanValue(k, v))
  {
    UserIdFixFacts(CleanFields(item), Get(item, "telegram_id"), k);
    GetCleanFields(item, k);
  }

  /** On save a user_id is present exactly when the record had a user_id or a telegram_id;
      it is the stripped string of the user_id, or else of the telegram_id. */
  lemma SaveItemUserId(item: Record)
    requires KeysDistinct(item)
    ensures Has(SaveItem(item), "user_id") <==> Has(item, "user_id") || Has(item, "telegram_id")
    ensures Has(item, "user_id") ==>
              Get(SaveItem(item), "user_id") == Some(Str(Strip(PyStr(Get(item, "user_id").value))))
    ensures !Has(item, "user_id") && Has(item, "telegram_id") ==>
              Get(SaveItem(item), "user_id") == Some(Str(Strip(PyStr(Get(item, "telegram_id").value))))
  {
    CleanFieldsIds(item);
    UserIdFixFacts(CleanFields(item), Get(item, "telegram_id"), "user_id");
  }

  /** Cleaning leaves the two id fields as they were. */
  lemma CleanFieldsIds(item: Record)
    requires KeysDistinct(item)
    ensures Get(CleanFields(item), "user_id") == Get(item, "user_id")
    ensures Get(CleanFields(item), "telegram_id") == Get(item, "telegram_id")
  {
    GetCleanFields(item, "user_id");
    GetCleanFields(item, "telegram_id");
    assert "user_id" !in StringFields && "telegram_id" !in StringFields;
  }

  /** Text standing for the string form of a stored user_id is already stripped. */
  lemma SavedUserIdStripped(item: Record)
    requires KeysDistinct(item) && Has(SaveItem(item), "user_id")
    ensures Get(SaveItem(item), "user_id").value.Str?
    ensures var u := Get(SaveItem(item), "user_id").value.s; Strip(u) == u
  {
    SaveItemUserId(item);
    if Has(item, "user_id") {
      StripIdempotent(PyStr(Get(item, "user_id").value));
    } else {
      StripIdempotent(PyStr(Get(item, "telegram_id").value));
    }
  }

  /** `safe_data` is `[clean(x) for x in data if isinstance(x, dict)]`. */
  lemma {:induction false} SaveItemsComprehension(items: seq<Item>)
    ensures SaveItems(items) == Map(Filter(items, IsObj), SaveOf)
    decreases |items|
  {
    if items != [] {
      var front, last := items[..|items| - 1], items[|items| - 1];
      assert items == front + [last];
      SaveItemsComprehension(front);
      FilterAppend(front, [last], IsObj);
      MapAppend(Filter(front, IsObj), Filter([last], IsObj), SaveOf);
      assert Filter([last], IsObj) == if last.Obj? then [last] else [];
    }
  }

  function IsObj(x: Item): bool { x.Obj? }

  function SaveOf(x: Item): Record {
    if x.Obj? then SaveItem(x.rec) else []
  }

  lemma MapAppend<T, U>(xs: seq<T>, ys: seq<T>, f: T -> U)
    ensures Map(xs + ys, f) == Map(xs, f) + Map(ys, f)
  {
  }

  /** There is a month whose value is a list and whose stripped key is k. */
  predicate ListMonthAt(schedules: Dict<Month>, k: string, i: int) {
    0 <= i < |schedules| && schedules[i].1.List? && Strip(schedules[i].0) == k
  }

  /** The saved months are exactly the months whose value is a list, under stripped keys. */
  lemma SaveAllHas(schedules: Dict<Month>, k: string)
    ensures Has(SaveAll(schedules), k) <==> exists i :: ListMonthAt(schedules, k, i)
  {
    if Has(SaveAll(schedules), k) {
      SaveAllHasOnlyIf(schedules, k);
    }
    if exists i :: ListMonthAt(schedules, k, i) {
      var i :| ListMonthAt(schedules, k, i);
      SaveAllHasIf(schedules, k, i);
    }
  }

  lemma {:induction false} SaveAllHasIf(schedules: Dict<Month>, k: string, i: int)
    requires ListMonthAt(schedules, k, i)
    ensures Has(SaveAll(schedules), k)
    decreases |schedules|
  {
    var n := |schedules| - 1;
    SaveAllHasStep(schedules, k);
    if i < n {
      assert ListMonthAt(schedules[..n], k, i);
      SaveAllHasIf(schedules[..n], k, i);
    }
  }

  lemma {:induction false} SaveAllHasOnlyIf(schedules: Dict<Month>, k: string)
    requires Has(SaveAll(schedules), k)
    ensures exists i :: ListMonthAt(schedules, k, i)
    decreases |schedules|
  {
    var n := |schedules| - 1;
    SaveAllHasStep(schedules, k);
    if ListMonthAt(schedules, k, n) {
    } else {
      SaveAllHasOnlyIf(schedules[..n], k);
      var i :| ListMonthAt(schedules[..n], k, i);
      assert ListMonthAt(schedules, k, i);
    }
  }

  lemma SaveAllHasStep(schedules: Dict<Month>, k: string)
    requires schedules != []
    ensures var n := |schedules| - 1;
            Has(SaveAll(schedules), k) <==> Has(SaveAll(schedules[..n]), k) || ListMonthAt(schedules, k, n)
  {
    var n := |schedules| - 1;
    if schedules[n].1.List? {
      GetSet(SaveAll(schedules[..n]), Strip(schedules[n].0), SaveItems(schedules[n].1.items), k);
    }
  }

  /** A list month is saved with its cleaned records unless a later list month has the same
      stripped key. */
  lemma {:induction false} SaveAllMonth(schedules: Dict<Month>, i: nat)
    requires i < |schedules| && schedules[i].1.List?
    requires forall j :: i < j < |schedules| && schedules[j].1.List? ==> Strip(schedules[j].0) != Strip(schedules[i].0)
    ensures Get(SaveAll(schedules), Strip(schedules[i].0)) == Some(SaveItems(schedules[i].1.items))
    decreases |schedules|
  {
    var n := |schedules| - 1;
    var front := schedules[..n];
    var k := Strip(schedules[i].0);
    if i < n {
      assert front[i] == schedules[i];
      SaveAllMonth(front, i);
      if schedules[n].1.List? {
        GetSet(SaveAll(front), Strip(schedules[n].0), SaveItems(schedules[n].1.items), k);
      }
    } else {
      GetSet(SaveAll(front), k, SaveItems(schedules[n].1.items), k);
    }
  }

  /** The loop of `save_all_schedules` over the months. */
  method SaveAllSchedules(schedules: Dict<Month>) returns (safe: Dict<seq<Record>>)
    ensures safe == SaveAll(schedules)
  {
    safe := [];
    for n := 0 to |schedules|
      invariant safe == SaveAll(schedules[..n])
    {
      assert schedules[..n + 1][..n] == schedules[..n];
      var key, data := schedules[n].0, schedules[n].1;
      if data.List? {
        var safeData := SaveMonth(data.items);
        safe := Set(safe, Strip(key), safeData);
      }
    }
    assert schedules[..|schedules|] == schedules;
  }

  /** The loop over one month's list. */
  method SaveMonth(items: seq<Item>) returns (safeData: seq<Record>)
    ensures safeData == SaveItems(items)
  {
    safeData := [];
    for n := 0 to |items|
      invariant safeData == SaveItems(items[..n])
    {
      assert items[..n + 1][..n] == items[..n];
      if items[n].Obj? {
        var clean := CleanItem(items[n].rec);
        safeData := safeData + [clean];
      }
    }
    assert items[..|items|] == items;
  }

  /** The loop over one record's fields, then the two user_id rules. */
  method CleanItem(item: Record) returns (clean: Record)
    ensures clean == SaveItem(item)
  {
    clean := [];
    for n := 0 to |item|
      invariant clean == CleanFields(item[..n])
    {
      assert item[..n + 1][..n] == item[..n];
      var k, v := item[n].0, item[n].1;
      if k == "role" && v.Str? {
        clean := Set(clean, k, Str(Lower(Strip(v.s))));
      } else if k in StringFields {
        clean := Set(clean, k, Str(if Truthy(v) then PyStr(v) else ""));
      } else {
        clean := Set(clean, k, v);
      }
    }
    assert item[..|item|] == item;
    var telegram := Get(item, "telegram_id");
    if telegram.Some? && !Has(clean, "user_id") {
      clean := Set(clean, "user_id", Str(PyStr(telegram.value)));
    }
    if Has(clean, "user_id") {
      clean := Set(clean, "user_id", Str(Strip(PyStr(Get(clean, "user_id").value))));
    }
  }

  // ---------------------------------------------------------------------------
  // Load: `load_all_schedules`

  /** A list element that survives loading: an object with both a fio and a date key. */
  function Loadable(x: Item): bool {
    x.Obj? && Has(x.rec, "fio") && Has(x.rec, "date")
  }

  /** A string role stripped and lower-cased. */
  function LoadRole(r: Record): Record {
    var role: Option<Value> := Get(r, "role");
    match role
    case Some(Str(t)) => Set(r, "role", Str(Lower(Strip(t))))
    case _ => r
  }

  /** An old `group` key becomes `group_name` (placed last) unless that one exists. */
  function LoadGroup(r: Record): Record {
    if Has(r, "group") && !Has(r, "group_name") then Del(Set(r, "group_name", Get(r, "group").value), "group")
    else r
  }

  /** A missing gender becomes "male". */
  function LoadGender(r: Record): Record {
    if Has(r, "gender") then r else Set(r, "gender", Str("male"))
  }

  /** One record as `load_all_schedules` rewrites it in place. */
  function LoadItem(r: Record): Record {
    var r3 := LoadGender(LoadGroup(LoadRole(r)));
    UserIdFix(r3, Get(r3, "telegram_id"))
  }

  /** `clean_data`: the rewritten loadable records of one list. */
  function LoadItems(items: seq<Item>): seq<Record>
    decreases |items|
  {
    if items == [] then []
    else
      var last := items[|items| - 1];
      LoadItems(items[..|items| - 1]) + (if Loadable(last) then [LoadItem(last.rec)] else [])
  }

  /** `schedules`: months with a non-blank stripped key, a list value and at least one
      surviving record. */
  function LoadAll(raw: Dict<Month>): Dict<seq<Record>>
    decreases |raw|
  {
    if raw == [] then []
    else
      var front := LoadAll(raw[..|raw| - 1]);
      var key, m := Strip(raw[|raw| - 1].0), raw[|raw| - 1].1;
      if key == [] || !m.List? then front
      else
        var clean := LoadItems(m.items);
        if clean == [] then front else Set(front, key, clean)
  }

  /** On load: fio and date are kept as they are; a string role is stripped and lower-cased;
      an old `group` is renamed to `group_name` when that is absent; a missing gender becomes
      "male"; any other field except user_id is unchanged. */
  lemma LoadItemField(r: Record, k: string)
    requires k != "user_id"
    ensures k == "role" ==> Get(LoadItem(r), k) == RoleAfterLoad(Get(r, k))
    ensures k == "group" ==> Get(LoadItem(r), k) == if Has(r, "group_name") then Get(r, k) else None
    ensures k == "group_name" ==> Get(LoadItem(r), k) == if Has(r, k) then Get(r, k) else Get(r, "group")
    ensures k == "gender" ==> Get(LoadItem(r), k) == if Has(r, k) then Get(r, k) else Some(Str("male"))
    ensures k !in ["role", "group", "group_name", "gender"] ==> Get(LoadItem(r), k) == Get(r, k)
  {
    var r1 := LoadRole(r);
    var r2 := LoadGroup(r1);
    var r3 := LoadGender(r2);
    UserIdFixFacts(r3, Get(r3, "telegram_id"), k);
    GetLoadRole(r, k);
    GetLoadRole(r, "group");
    GetLoadRole(r, "group_name");
    GetLoadGroup(r1, k);
    GetLoadGender(r2, k);
  }

  lemma GetLoadRole(r: Record, k: string)
    ensures Get(LoadRole(r), k) == if k == "role" then RoleAfterLoad(Get(r, k)) else Get(r, k)
  {
    var role: Option<Value> := Get(r, "role");
    if role.Some? && role.value.Str? {
      GetSet(r, "role", Str(Lower(Strip(role.value.s))), k);
    }
  }

  /** The role a record has after loading, given the one it had. */
  function RoleAfterLoad(role: Option<Value>): Option<Value> {
    if role.Some? && role.value.Str? then Some(Str(Lower(Strip(role.value.s)))) else role
  }

  lemma GetLoadGroup(r: Record, k: string)
    ensures Get(LoadGroup(r), k) == if Has(r, "group") && !Has(r, "group_name") then
                                      (if k == "group" then None else if k == "group_name" then Get(r, "group") else Get(r, k))
                                    else Get(r, k)
  {
    if Has(r, "group") && !Has(r, "group_name") {
      var s := Set(r, "group_name", Get(r, "group").value);
      GetDel(s, "group", k);
      GetSet(r, "group_name", Get(r, "group").value, k);
    }
  }

  lemma GetLoadGender(r: Record, k: string)
    ensures Get(LoadGender(r), k) == if k == "gender" && !Has(r, k) then Some(Str("male")) else Get(r, k)
  {
    if !Has(r, "gender") { GetSet(r, "gender", Str("male"), k); }
  }

  /** A loaded record always has fio, date, gender and group_name or no group, and a user_id
      exactly when it had a user_id or a telegram_id. */
  lemma LoadItemShape(r: Record)
    requires Has(r, "fio") && Has(r, "date")
    ensures Has(LoadItem(r), "fio") && Has(LoadItem(r), "date") && Has(LoadItem(r), "gender")
    ensures Has(LoadItem(r), "group") ==> Has(LoadItem(r), "group_name")
    ensures Has(LoadItem(r), "user_id") <==> Has(r, "user_id") || Has(r, "telegram_id")
  {
    assert Has(LoadItem(r), "fio") by { LoadItemField(r, "fio"); }
    assert Has(LoadItem(r), "date") by { LoadItemField(r, "date"); }
    assert Has(LoadItem(r), "gender") by { LoadItemField(r, "gender"); }
    assert Has(LoadItem(r), "group") ==> Has(LoadItem(r), "group_name") by {
      LoadItemField(r, "group");
      LoadItemField(r, "group_name");
    }
    LoadItemUserId(r);
  }

  /** On load a user_id is present exactly when the record had a user_id or a telegram_id;
      it is the stripped string of the user_id, or else of the telegram_id. */
  lemma LoadItemUserId(r: Record)
    ensures Has(LoadItem(r), "user_id") <==> Has(r, "user_id") || Has(r, "telegram_id")
    ensures Has(r, "user_id") ==>
              Get(LoadItem(r), "user_id") == Some(Str(Strip(PyStr(Get(r, "user_id").value))))
    ensures !Has(r, "user_id") && Has(r, "telegram_id") ==>
              Get(LoadItem(r), "user_id") == Some(Str(Strip(PyStr(Get(r, "telegram_id").value))))
  {
    var r1 := LoadRole(r);
    var r2 := LoadGroup(r1);
    var r3 := LoadGender(r2);
    assert Get(r3, "telegram_id") == Get(r, "telegram_id") by {
      GetLoadRole(r, "telegram_id");
      GetLoadGroup(r1, "telegram_id");
      GetLoadGender(r2, "telegram_id");
    }
    assert Get(r3, "user_id") == Get(r, "user_id") by {
      GetLoadRole(r, "user_id");
      GetLoadGroup(r1, "user_id");
      GetLoadGender(r2, "user_id");
    }
    UserIdFixFacts(r3, Get(r3, "telegram_id"), "user_id");
  }

  /** `clean_data` is `[fix(x) for x in value if isinstance(x, dict) and 'fio' in x and 'date' in x]`. */
  lemma {:induction false} LoadItemsComprehension(items: seq<Item>)
    ensures LoadItems(items) == Map(Filter(items, Loadable), LoadOf)
    decreases |items|
  {
    if items != [] {
      var front, last := items[..|items| - 1], items[|items| - 1];
      assert items == front + [last];
      LoadItemsComprehension(front);
      FilterAppend(front, [last], Loadable);
      MapAppend(Filter(front, Loadable), Filter([last], Loadable), LoadOf);
      assert Filter([last], Loadable) == if Loadable(last) then [last] else [];
    }
  }

  function LoadOf(x: Item): Record {
    if x.Obj? then LoadItem(x.rec) else []
  }

  /** Every loaded month has a non-blank key and at least one record, and every record has
      a fio, a date and a gender. */
  lemma {:induction false} LoadAllShape(raw: Dict<Month>)
    ensures forall e :: e in LoadAll(raw) ==>
              e.0 != [] && e.1 != [] && forall r :: r in e.1 ==> Has(r, "fio") && Has(r, "date") && Has(r, "gender")
    decreases |raw|
  {
    if raw != [] {
      var front := raw[..|raw| - 1];
      LoadAllShape(front);
      var key, m := Strip(raw[|raw| - 1].0), raw[|raw| - 1].1;
      if key != [] && m.List? && LoadItems(m.items) != [] {
        LoadItemsShape(m.items);
        SetEntries(LoadAll(front), key, LoadItems(m.items));
      }
    }
  }

  lemma LoadItemsShape(items: seq<Item>)
    ensures forall r :: r in LoadItems(items) ==> Has(r, "fio") && Has(r, "date") && Has(r, "gender")
  {
    LoadItemsComprehension(items);
    var f := Filter(items, Loadable);
    forall r | r in LoadItems(items) ensures Has(r, "fio") && Has(r, "date") && Has(r, "gender") {
      var j :| 0 <= j < |f| && LoadOf(f[j]) == r;
      assert f[j] in f;
      FilterMember(items, Loadable, f[j]);
      LoadItemShape(f[j].rec);
    }
  }

  /** Every entry of `d[k] = v` is an old entry or (k, v). */
  lemma {:induction false} SetEntries<V>(d: Dict<V>, k: string, v: V)
    ensures forall e :: e in Set(d, k, v) ==> e in d || e == (k, v)
  {
    if d != [] && d[0].0 != k {
      SetEntries(d[1..], k, v);
    }
  }

  /** The method form of `load_all_schedules`' loop over the months. */
  method LoadAllSchedules(raw: Dict<Month>) returns (schedules: Dict<seq<Record>>)
    ensures schedules == LoadAll(raw)
  {
    schedules := [];
    for n := 0 to |raw|
      invariant schedules == LoadAll(raw[..n])
    {
      assert raw[..n + 1][..n] == raw[..n];
      var safeKey, value := Strip(raw[n].0), raw[n].1;
      if safeKey == [] || !value.List? {
        continue;
      }
      var cleanData := LoadMonth(value.items);
      if cleanData != [] {
        schedules := Set(schedules, safeKey, cleanData);
      }
    }
    assert raw[..|raw|] == raw;
  }

  /** The loop over one month's list, rewriting each kept record in place. */
  method LoadMonth(items: seq<Item>) returns (cleanData: seq<Record>)
    ensures cleanData == LoadItems(items)
  {
    cleanData := [];
    for n := 0 to |items|
      invariant cleanData == LoadItems(items[..n])
    {
      assert items[..n + 1][..n] == items[..n];
      var x := items[n];
      if x.Obj? && Has(x.rec, "fio") && Has(x.rec, "date") {
        var item := FixLoaded(x.rec);
        cleanData := cleanData + [item];
      }
    }
    assert items[..|items|] == items;
  }

  /** The statements that rewrite one loaded record. */
  method FixLoaded(r: Record) returns (item: Record)
    ensures item == LoadItem(r)
  {
    item := r;
    var role := Get(item, "role");
    if role.Some? && role.value.Str? {
      item := Set(item, "role", Str(Lower(Strip(role.value.s))));
    }
    if Has(item, "group") && !Has(item, "group_name") {
      item := Set(item, "group_name", Get(item, "group").value);
      item := Del(item, "group");
    }
    if !Has(item, "gender") {
      item := Set(item, "gender", Str("male"));
    }
    var telegram := Get(item, "telegram_id");
    if telegram.Some? && !Has(item, "user_id") {
      item := Set(item, "user_id", Str(PyStr(telegram.value)));
    }
    if Has(item, "user_id") {
      item := Set(item, "user_id", Str(Strip(PyStr(Get(item, "user_id").value))));
    }
  }

  // ---------------------------------------------------------------------------
  // `get_month_year_from_schedule`

  /** `strftime("%Y-%m")`. */
  function NowMonth(now: Date): string
    requires ValidDate(now)
  {
    Pad4(now.year) + "-" + Pad2(now.month)
  }

  /** The month key a record's date gives: "Y-MM" when the date is a non-empty string whose
      first two '-'-separated parts are digits, the month zero-padded to two characters. */
  function MonthOf(item: Record): Option<string> {
    var date: Option<Value> := Get(item, "date");
    match date
    case Some(Str(d)) =>
      var parts := SplitOn(d, '-');
      if d != [] && |parts| >= 2 && IsDigits(parts[0]) && IsDigits(parts[1]) then
        Some(parts[0] + "-" + ZFill(parts[1], 2))
      else None
    case _ => None
  }

  /** The search loop with early return: f's value on the first element that has one, or
      the default. */
  function FirstOf<T, U>(xs: seq<T>, f: T -> Option<U>, default: U): U
    decreases |xs|
  {
    if xs == [] then default
    else if f(xs[0]).Some? then f(xs[0]).value
    else FirstOf(xs[1..], f, default)
  }

  lemma {:induction false} FirstOfFirst<T, U>(xs: seq<T>, f: T -> Option<U>, default: U, i: nat)
    requires i <= |xs| && forall j :: 0 <= j < i ==> f(xs[j]).None?
    ensures i < |xs| && f(xs[i]).Some? ==> FirstOf(xs, f, default) == f(xs[i]).value
    ensures i == |xs| ==> FirstOf(xs, f, default) == default
    decreases i
  {
    if i > 0 {
      assert f(xs[0]).None?;
      assert forall j :: 0 <= j < i - 1 ==> xs[1..][j] == xs[j + 1];
      FirstOfFirst(xs[1..], f, default, i - 1);
    }
  }

  /** `get_month_year_from_schedule`: the month of the first record that has one, or the
      current month (also for an empty list). */
  function MonthYear(data: seq<Record>, now: Date): (m: string)
    requires ValidDate(now)
  {
    FirstOf(data, MonthOf, NowMonth(now))
  }

  /** The key comes from the first record with a usable date; with none it is the current month. */
  lemma MonthYearFirst(data: seq<Record>, now: Date, i: nat)
    requires ValidDate(now) && i <= |data|
    requires forall j :: 0 <= j < i ==> MonthOf(data[j]).None?
    ensures i < |data| && MonthOf(data[i]).Some? ==> MonthYear(data, now) == MonthOf(data[i]).value
    ensures i == |data| ==> MonthYear(data, now) == NowMonth(now)
  {
    FirstOfFirst(data, MonthOf, NowMonth(now), i);
  }

  /** A month key: digits, one '-', then at least two digits. */
  predicate IsMonthKey(m: string) {
    var parts := SplitOn(m, '-');
    |parts| == 2 && IsDigits(parts[0]) && IsDigits(parts[1]) && |parts[1]| >= 2
  }

  lemma MonthKeyOf(y: string, mm: string)
    requires IsDigits(y) && IsDigits(mm) && |mm| >= 2
    ensures IsMonthKey(y + "-" + mm)
  {
    DigitsNoDash(y);
    DigitsNoDash(mm);
    assert y + "-" + mm == y + ['-'] + mm;
    SplitOnConcat(y, '-', mm);
    SplitOnSingle(mm, '-');
  }

  lemma DigitsNoDash(s: string)
    requires IsDigits(s)
    ensures '-' !in s
  {
    forall j | 0 <= j < |s| ensures s[j] != '-' {
      assert IsDigit(s[j]);
    }
  }

  /** Whatever the records say, the result is a well-formed month key. */
  lemma MonthYearIsKey(data: seq<Record>, now: Date)
    requires ValidDate(now)
    ensures IsMonthKey(MonthYear(data, now))
  {
    MonthKeyOf(Pad4(now.year), Pad2(now.month));
    FirstOfKey(data, now);
  }

  lemma {:induction false} FirstOfKey(data: seq<Record>, now: Date)
    requires ValidDate(now) && IsMonthKey(NowMonth(now))
    ensures IsMonthKey(FirstOf(data, MonthOf, NowMonth(now)))
    decreases |data|
  {
    if data != [] {
      if MonthOf(data[0]).Some? {
        MonthOfIsKey(data[0]);
      } else {
        FirstOfKey(data[1..], now);
      }
    }
  }

  lemma MonthOfIsKey(item: Record)
    requires MonthOf(item).Some?
    ensures IsMonthKey(MonthOf(item).value)
  {
    var parts := SplitOn(Get(item, "date").value.s, '-');
    ZFillDigits(parts[1], 2);
    MonthKeyOf(parts[0], ZFill(parts[1], 2));
  }

  /** A record dated YYYY-MM-DD gives the same key as `strftime("%Y-%m")` on that date. */
  lemma MonthOfDate(item: Record, d: Date)
    requires ValidDate(d) && Get(item, "date") == Some(Str(FormatDate(d)))
    ensures MonthOf(item) == Some(NowMonth(d))
  {
    var y, m, dd := Pad4(d.year), Pad2(d.month), Pad2(d.day);
    MonthKeyOf(y, m);
    DigitsNoDash(y);
    DigitsNoDash(m);
    DigitsNoDash(dd);
    assert FormatDate(d) == y + ['-'] + m + ['-'] + dd;
    SplitOnThree(y, m, dd, '-');
  }

  // ---------------------------------------------------------------------------
  // `get_schedule_for_user`

  /** The exceptions `get_schedule_for_user` lets through. */
  datatype Failure = MissingKey | NotAString | Incomparable

  datatype Outcome<T> = Ok(value: T) | Raised(error: Failure)

  /** One row of the Mini App's list. */
  datatype UserDuty = UserDuty(date: string, role: string, groupName: string, isPast: bool)

  /** `duty.get(k, "").strip()`: AttributeError when the value is not a string. */
  function StrippedField(duty: Record, k: string): Outcome<string> {
    var v: Option<Value> := Get(duty, k);
    match v
    case None => Ok("")
    case Some(Str(t)) => Ok(Strip(t))
    case Some(_) => Raised(NotAString)
  }

  /** The row built for one duty: `duty["date"]` (KeyError when missing), the stripped role
      and group_name, and whether the date lies before today as strings compare (TypeError
      for a date that is not a string). */
  function Row(duty: Record, now: Date): (o: Outcome<UserDuty>)
    requires ValidDate(now)
    ensures o.Ok? ==> Get(duty, "date") == Some(Str(o.value.date))
                      && (o.value.isPast <==> StrLess(o.value.date, FormatDate(now)))
  {
    match Get(duty, "date")
    case None => Raised(MissingKey)
    case Some(date) =>
      match StrippedField(duty, "role")
      case Raised(e) => Raised(e)
      case Ok(role) =>
        match StrippedField(duty, "group_name")
        case Raised(e) => Raised(e)
        case Ok(group) =>
          if date.Str? then Ok(UserDuty(date.s, role, group, StrLess(date.s, FormatDate(now))))
          else Raised(Incomparable)
  }

  function IsUser(uid: string): Record -> bool {
    (duty: Record) => Get(duty, "user_id") == Some(Str(uid))
  }

  /** The rows of the user's duties in the given order; the first failing row raises. */
  function Rows(ds: seq<Record>, now: Date): Outcome<seq<UserDuty>>
    requires ValidDate(now)
    decreases |ds|
  {
    if ds == [] then Ok([])
    else
      match Rows(ds[..|ds| - 1], now)
      case Raised(e) => Raised(e)
      case Ok(rows) =>
        match Row(ds[|ds| - 1], now)
        case Raised(e) => Raised(e)
        case Ok(row) => Ok(rows + [row])
  }

  function MonthLists(all: Dict<seq<Record>>): seq<seq<Record>> {
    Map(all, (e: (string, seq<Record>)) => e.1)
  }

  /** `get_schedule_for_user(user_id)` on the loaded schedules: the rows of the records whose
      user_id is the stripped argument, month by month, sorted by date. */
  function ScheduleForUser(raw: Dict<Month>, userId: string, now: Date): Outcome<seq<UserDuty>>
    requires ValidDate(now)
  {
    var mine := Filter(Flatten(MonthLists(LoadAll(raw))), IsUser(Strip(userId)));
    match Rows(mine, now)
    case Raised(e) => Raised(e)
    case Ok(rows) =>
      Schedule.StrLessIsOrder();
      Ok(SortBy(rows, RowDate, StrLess))
  }

  function RowDate(r: UserDuty): string { r.date }

  /** Each row belongs to one of the user's records, in order, and reports that record's date. */
  lemma {:induction false} RowsOfMine(ds: seq<Record>, now: Date)
    requires ValidDate(now) && Rows(ds, now).Ok?
    ensures |Rows(ds, now).value| == |ds|
    ensures forall j :: 0 <= j < |ds| ==> Row(ds[j], now) == Ok(Rows(ds, now).value[j])
    decreases |ds|
  {
    if ds != [] {
      var front := ds[..|ds| - 1];
      RowsUnsnoc(ds, now);
      RowsOfMine(front, now);
      var rows, fr := Rows(ds, now).value, Rows(front, now).value;
      assert rows == fr + [Row(ds[|ds| - 1], now).value];
      forall j | 0 <= j < |ds| ensures Row(ds[j], now) == Ok(rows[j]) {
        if j < |front| {
          assert front[j] == ds[j] && rows[j] == fr[j];
        } else {
          assert j == |ds| - 1 && rows[j] == Row(ds[|ds| - 1], now).value;
        }
      }
    }
  }

  lemma RowsUnsnoc(ds: seq<Record>, now: Date)
    requires ValidDate(now) && ds != [] && Rows(ds, now).Ok?
    ensures Rows(ds[..|ds| - 1], now).Ok? && Row(ds[|ds| - 1], now).Ok?
    ensures Rows(ds, now).value == Rows(ds[..|ds| - 1], now).value + [Row(ds[|ds| - 1], now).value]
  {
  }

  /** The user's list is sorted by date, a permutation of the rows of their records, and
      each of those records carries the user's stripped id. */
  lemma ScheduleForUserSorted(raw: Dict<Month>, userId: string, now: Date)
    requires ValidDate(now) && ScheduleForUser(raw, userId, now).Ok?
    ensures var mine := Filter(Flatten(MonthLists(LoadAll(raw))), IsUser(Strip(userId)));
            var r := ScheduleForUser(raw, userId, now).value;
            (forall a, b :: 0 <= a < b < |r| ==> !StrLess(r[b].date, r[a].date))
            && Rows(mine, now).Ok? && multiset(r) == multiset(Rows(mine, now).value)
            && forall d :: d in mine ==> Get(d, "user_id") == Some(Str(Strip(userId)))
  {
    var mine := Filter(Flatten(MonthLists(LoadAll(raw))), IsUser(Strip(userId)));
    var rows := Rows(mine, now).value;
    Schedule.StrLessIsOrder();
    SortBySorted(rows, RowDate, StrLess);
    SortByPermutation(rows, RowDate, StrLess);
    FilterMembers(Flatten(MonthLists(LoadAll(raw))), IsUser(Strip(userId)));
  }

  /** `get_schedule_for_user`: the loop over the loaded months and their records, then the sort. */
  method GetScheduleForUser(raw: Dict<Month>, userId: string, now: Date) returns (o: Outcome<seq<UserDuty>>)
    requires ValidDate(now)
    ensures o == ScheduleForUser(raw, userId, now)
  {
    var all := LoadAllSchedules(raw);
    var uid := Strip(userId);
    var lists := MonthLists(all);
    var result := [];
    for g := 0 to |lists|
      invariant Rows(Filter(Flatten(lists[..g]), IsUser(uid)), now) == Ok(result)
    {
      assert lists[..g + 1][..g] == lists[..g];
      var part := UserRowsOfMonth(lists[g], uid, now, result, Filter(Flatten(lists[..g]), IsUser(uid)));
      FilterAppend(Flatten(lists[..g]), lists[g], IsUser(uid));
      assert Flatten(lists[..g + 1]) == Flatten(lists[..g]) + lists[g];
      if part.Raised? {
        MonthRaised(lists, g + 1, uid, now);
        return Raised(part.error);
      }
      result := part.value;
    }
    assert lists[..|lists|] == lists;
    Schedule.StrLessIsOrder();
    return Ok(SortBy(result, RowDate, StrLess));
  }

  /** The inner loop over one month: the rows so far extended by this month's matching records. */
  method UserRowsOfMonth(duties: seq<Record>, uid: string, now: Date, before: seq<UserDuty>, done: seq<Record>)
    returns (o: Outcome<seq<UserDuty>>)
    requires ValidDate(now) && Rows(done, now) == Ok(before)
    ensures o == Rows(done + Filter(duties, IsUser(uid)), now)
  {
    var result := before;
    assert done + Filter(duties[..0], IsUser(uid)) == done by { assert duties[..0] == []; }
    for i := 0 to |duties|
      invariant Rows(done + Filter(duties[..i], IsUser(uid)), now) == Ok(result)
    {
      UserRowsStep(done, duties, i, uid, now, result);
      if IsUser(uid)(duties[i]) {
        var row := Row(duties[i], now);
        if row.Raised? {
          return Raised(row.error);
        }
        result := result + [row.value];
      }
    }
    assert duties[..|duties|] == duties;
    return Ok(result);
  }

  /** One record of the inner loop: skipped, appended, or the error of the whole month. */
  lemma UserRowsStep(done: seq<Record>, duties: seq<Record>, i: nat, uid: string, now: Date, result: seq<UserDuty>)
    requires ValidDate(now) && i < |duties|
    requires Rows(done + Filter(duties[..i], IsUser(uid)), now) == Ok(result)
    ensures !IsUser(uid)(duties[i]) ==> Rows(done + Filter(duties[..i + 1], IsUser(uid)), now) == Ok(result)
    ensures IsUser(uid)(duties[i]) && Row(duties[i], now).Ok? ==>
              Rows(done + Filter(duties[..i + 1], IsUser(uid)), now) == Ok(result + [Row(duties[i], now).value])
    ensures IsUser(uid)(duties[i]) && Row(duties[i], now).Raised? ==>
              Rows(done + Filter(duties, IsUser(uid)), now) == Raised(Row(duties[i], now).error)
  {
    var p := done + Filter(duties[..i], IsUser(uid));
    var q := done + Filter(duties[..i + 1], IsUser(uid));
    FilterSnoc(done, duties, i, IsUser(uid));
    if IsUser(uid)(duties[i]) {
      StepAppended(p, q, duties[i], now);
      if Row(duties[i], now).Raised? {
        FilteredPrefix(done, duties, i + 1, IsUser(uid));
        RowsRaisedPrefix(q, done + Filter(duties, IsUser(uid)), now);
      }
    } else {
      assert q == p + [];
      assert q == p;
    }
  }

  lemma StepAppended(p: seq<Record>, q: seq<Record>, d: Record, now: Date)
    requires ValidDate(now) && Rows(p, now).Ok? && q == p + [d]
    ensures Row(d, now).Ok? ==> Rows(q, now) == Ok(Rows(p, now).value + [Row(d, now).value])
    ensures Row(d, now).Raised? ==> Rows(q, now) == Raised(Row(d, now).error)
  {
    RowsStep(p, d, now);
  }

  /** Once a prefix of the records raises, so does the whole list, with the same error. */
  lemma {:induction false} RowsRaisedPrefix(p: seq<Record>, q: seq<Record>, now: Date)
    requires ValidDate(now) && |p| <= |q| && q[..|p|] == p && Rows(p, now).Raised?
    ensures Rows(q, now) == Rows(p, now)
    decreases |q|
  {
    if |q| > |p| {
      var f := q[..|q| - 1];
      assert f[..|p|] == p;
      RowsRaisedPrefix(p, f, now);
    } else {
      assert q == p;
    }
  }

  lemma {:induction false} FlattenSplit<T>(xss: seq<seq<T>>, n: nat)
    requires n <= |xss|
    ensures Flatten(xss) == Flatten(xss[..n]) + Flatten(xss[n..])
    decreases |xss|
  {
    if n == |xss| {
      assert xss[..n] == xss;
      assert xss[n..] == [];
    } else {
      var front := xss[..|xss| - 1];
      FlattenSplit(front, n);
      assert front[..n] == xss[..n];
      assert xss[n..][..|xss[n..]| - 1] == front[n..];
    }
  }

  /** A month whose records raise makes the whole query raise. */
  lemma MonthRaised(lists: seq<seq<Record>>, n: nat, uid: string, now: Date)
    requires ValidDate(now) && n <= |lists| && Rows(Filter(Flatten(lists[..n]), IsUser(uid)), now).Raised?
    ensures Rows(Filter(Flatten(lists), IsUser(uid)), now) == Rows(Filter(Flatten(lists[..n]), IsUser(uid)), now)
  {
    FlattenSplit(lists, n);
    FilterAppend(Flatten(lists[..n]), Flatten(lists[n..]), IsUser(uid));
    var p := Filter(Flatten(lists[..n]), IsUser(uid));
    assert Filter(Flatten(lists), IsUser(uid))[..|p|] == p;
    RowsRaisedPrefix(p, Filter(Flatten(lists), IsUser(uid)), now);
  }

  lemma FilterSnoc<T(!new)>(done: seq<T>, xs: seq<T>, i: nat, f: T -> bool)
    requires i < |xs|
    ensures done + Filter(xs[..i + 1], f) == done + Filter(xs[..i], f) + (if f(xs[i]) then [xs[i]] else [])
  {
    assert xs[..i + 1] == xs[..i] + [xs[i]];
    FilterAppend(xs[..i], [xs[i]], f);
  }

  lemma FilteredPrefix<T(!new)>(done: seq<T>, xs: seq<T>, n: nat, f: T -> bool)
    requires n <= |xs|
    ensures var p := done + Filter(xs[..n], f);
            |p| <= |done + Filter(xs, f)| && (done + Filter(xs, f))[..|p|] == p
  {
    assert xs[..n] + xs[n..] == xs;
    FilterAppend(xs[..n], xs[n..], f);
  }

  lemma RowsStep(p: seq<Record>, d: Record, now: Date)
    requires ValidDate(now) && Rows(p, now).Ok?
    ensures Rows(p + [d], now) == match Row(d, now)
                                  case Raised(e) => Raised(e)
                                  case Ok(row) => Ok(Rows(p, now).value + [row])
  {
    assert (p + [d])[..|p|] == p;
  }
}
