/**
 * The logic of the admin screen (src/app/admin/page.tsx): its own copy of
 * the schedule formatter, the order summary, the local status update, the
 * schedule-row editor and the config reload. Filtering is `Orders.FilterOrders`.
 */
module AdminPage {
  import opened Wrappers
  import opened JsString
  import opened Seqs
  import opened Orders
  import opened Counting
  import opened ScheduleUtils
  import FormDefaults
  import ConfigRoute
  import AdminAuth

  // ------------------------------------------------------------ formatting

  /** The page's `formatSchedule(value)`: always padded, no separate empty-input check. */
  function FormatLabel(value: string, dow: DayOracle): (r: string)
    ensures r == FormatSchedule(Some(value), true, dow)
  {
    match ScheduleMatch(value)
    case None => value
    case Some(p) => Label(p, DayPart(p, dow), true)
  }

  // --------------------------------------------------------------- summary

  /** `{ pending: 0, confirmed: 0, cancelled: 0 }`. */
  const StatusSeed: map<string, nat> := map[Pending := 0, Confirmed := 0, Cancelled := 0]

  function StatusOf(o: Order): string {
    o.status
  }

  /** `order.schedule || '미지정'`. */
  function ScheduleLabel(o: Order): string {
    KeyOr(o.schedule, "미지정")
  }

  datatype PageSummary = PageSummary(total: nat, statusCounts: map<string, nat>, scheduleCounts: map<string, nat>)

  /** The two count maps after the first `i` orders. */
  predicate CountedUpTo(orders: seq<Order>, i: nat, statusCounts: map<string, nat>, scheduleCounts: map<string, nat>)
    requires i <= |orders|
  {
    && statusCounts == Tally(StatusSeed, Map(orders[..i], StatusOf))
    && scheduleCounts == Tally(map[], Map(orders[..i], ScheduleLabel))
  }

  /** Counting order `i` into both maps. */
  lemma CountOne(orders: seq<Order>, i: nat, statusCounts: map<string, nat>, scheduleCounts: map<string, nat>)
    requires i < |orders| && CountedUpTo(orders, i, statusCounts, scheduleCounts)
    ensures var status := orders[i].status;
      var schedule := ScheduleLabel(orders[i]);
      CountedUpTo(orders, i + 1,
                  statusCounts[status := Get(statusCounts, status) + 1],
                  scheduleCounts[schedule := Get(scheduleCounts, schedule) + 1])
  {
    TallyMapStep(StatusSeed, orders, StatusOf, i);
    TallyMapStep(map[], orders, ScheduleLabel, i);
  }

  /** `summary`: one pass over the orders updating both count maps. */
  method Summarize(orders: seq<Order>) returns (s: PageSummary)
    ensures s.total == |orders|
    ensures s.statusCounts == Tally(StatusSeed, Map(orders, StatusOf))
    ensures s.scheduleCounts == Tally(map[], Map(orders, ScheduleLabel))
  {
    var statusCounts: map<string, nat> := StatusSeed;
    var scheduleCounts: map<string, nat> := map[];
    var i := 0;
    while i < |orders|
      invariant 0 <= i <= |orders|
      invariant CountedUpTo(orders, i, statusCounts, scheduleCounts)
    {
      var order := orders[i];
      CountOne(orders, i, statusCounts, scheduleCounts);
      statusCounts := statusCounts[order.status := Get(statusCounts, order.status) + 1];
      var schedule := ScheduleLabel(order);
      scheduleCounts := scheduleCounts[schedule := Get(scheduleCounts, schedule) + 1];
      i := i + 1;
    }
    assert orders[..i] == orders;
    s := PageSummary(|orders|, statusCounts, scheduleCounts);
  }

  /**
   * The three statuses are always present; every count is the number of
   * orders with that key; both maps add up to the number of orders.
   */
  lemma SummaryCounts(orders: seq<Order>, k: string)
    ensures var statusCounts := Tally(StatusSeed, Map(orders, StatusOf));
      && Pending in statusCounts && Confirmed in statusCounts && Cancelled in statusCounts
      && Get(statusCounts, k) == multiset(Map(orders, StatusOf))[k]
      && SumValues(statusCounts) == |orders|
    ensures var scheduleCounts := Tally(map[], Map(orders, ScheduleLabel));
      && Get(scheduleCounts, k) == multiset(Map(orders, ScheduleLabel))[k]
      && SumValues(scheduleCounts) == |orders|
  {
    TallyCounts(StatusSeed, Map(orders, StatusOf), k);
    TallyCounts(map[], Map(orders, ScheduleLabel), k);
    TallySum(StatusSeed, Map(orders, StatusOf));
    TallySum(map[], Map(orders, ScheduleLabel));
    SumZeros(StatusSeed);
  }

  // --------------------------------------------------------- status update

  /** The `setOrders` map after a successful PATCH: the order with `id` takes `status`, the status the reply carries. */
  function UpdateStatus(orders: seq<Order>, id: string, status: string): (r: seq<Order>)
    ensures |r| == |orders|
    ensures forall i :: 0 <= i < |r| ==> r[i].(status := orders[i].status) == orders[i]
    ensures forall i :: 0 <= i < |r| ==> orders[i].id == id ==> r[i].status == status
    ensures forall i :: 0 <= i < |r| ==> orders[i].id != id ==> r[i] == orders[i]
  {
    Map(orders, (o: Order) => if o.id == id then o.(status := status) else o)
  }

  /** Applying the same update twice is applying it once. */
  lemma UpdateStatusIdempotent(orders: seq<Order>, id: string, status: string)
    ensures UpdateStatus(UpdateStatus(orders, id, status), id, status) == UpdateStatus(orders, id, status)
  {
  }

  // ------------------------------------------------------- schedule rows

  /** `Array.from(new Set(items))`: each value once, at its first occurrence. */
  function Dedupe(items: seq<string>): (r: seq<string>)
    ensures forall x :: x in r <==> x in items
    ensures forall i, j :: 0 <= i < j < |r| ==> r[i] != r[j]
    decreases |items|
  {
    if items == [] then []
    else
      var rest := Dedupe(items[..|items| - 1]);
      var last := items[|items| - 1];
      assert items == items[..|items| - 1] + [last];
      if last in rest then rest else rest + [last]
  }

  /** Deduplicating more items keeps what came first and adds only the new items. */
  lemma {:induction false} DedupeExtends(a: seq<string>, b: seq<string>)
    ensures var d := Dedupe(a + b);
      && |Dedupe(a)| <= |d|
      && d[..|Dedupe(a)|] == Dedupe(a)
      && forall i :: |Dedupe(a)| <= i < |d| ==> d[i] in b
    decreases |b|
  {
    if b == [] {
      assert a + b == a;
    } else {
      var b0 := b[..|b| - 1];
      DedupeExtends(a, b0);
      assert (a + b)[..|a + b| - 1] == a + b0;
    }
  }

  /** Distinct items are their own deduplication. */
  lemma {:induction false} DedupeDistinct(items: seq<string>)
    requires forall i, j :: 0 <= i < j < |items| ==> items[i] != items[j]
    ensures Dedupe(items) == items
    decreases |items|
  {
    if items != [] {
      var init := items[..|items| - 1];
      DedupeDistinct(init);
      assert items[|items| - 1] !in init;
      assert init + [items[|items| - 1]] == items;
    }
  }

  /** The first position at or after `i` whose value is not in `existing`. */
  function FirstMissing(candidates: seq<string>, existing: set<string>, i: nat): (r: Option<nat>)
    requires i <= |candidates|
    ensures r.Some? ==> i <= r.value < |candidates| && candidates[r.value] !in existing
    ensures r.Some? ==> forall j :: i <= j < r.value ==> candidates[j] in existing
    ensures r.None? ==> forall j :: i <= j < |candidates| ==> candidates[j] in existing
    decreases |candidates| - i
  {
    if i == |candidates| then None
    else if candidates[i] !in existing then Some(i)
    else FirstMissing(candidates, existing, i + 1)
  }

  /**
   * `addScheduleRow`: appends the first default that is not yet a row, or
   * else the first default.
   */
  function AddScheduleRow(schedules: seq<string>): (r: seq<string>)
    ensures |r| == |schedules| + 1 && r[..|schedules|] == schedules
  {
    var existing := set x | x in schedules;
    var candidates := Dedupe(FormDefaults.DefaultSchedules + schedules);
    var found := match FirstMissing(candidates, existing, 0)
      case Some(i) => Some(candidates[i])
      case None => None;
    var next := OrDefault(found, FormDefaults.DefaultSchedules[0]);
    schedules + [next]
  }

  /** The defaults are three different texts. */
  lemma DefaultsDistinct()
    ensures var d := FormDefaults.DefaultSchedules;
      forall i, j :: 0 <= i < j < |d| ==> d[i] != d[j]
  {
    var d := FormDefaults.DefaultSchedules;
    assert d[0][9] == '0' && d[1][9] == '1' && d[2][9] == '2';
  }

  /** `d[i]` is not a row, and every default before it is. */
  predicate FirstAbsent(d: seq<string>, schedules: seq<string>, i: int) {
    0 <= i < |d| && d[i] !in schedules && forall j :: 0 <= j < i ==> d[j] in schedules
  }

  /**
   * The added row is the first default that is not yet a row; when every
   * default is a row already, it is the first default again.
   */
  lemma AddScheduleRowPicks(schedules: seq<string>)
    ensures var next := AddScheduleRow(schedules)[|schedules|];
      var d := FormDefaults.DefaultSchedules;
      && next in d
      && ((forall i :: 0 <= i < |d| ==> d[i] in schedules) ==> next == d[0])
      && (forall i :: FirstAbsent(d, schedules, i) ==> next == d[i])
  {
    var d := FormDefaults.DefaultSchedules;
    var existing := set x | x in schedules;
    var candidates := Dedupe(d + schedules);
    DefaultsDistinct();
    DedupeDistinct(d);
    DedupeExtends(d, schedules);
    assert candidates[..|d|] == d;
    forall k | |d| <= k < |candidates| ensures candidates[k] in existing {
      assert candidates[k] in schedules;
    }
    forall j | 0 <= j < |d| ensures candidates[j] == d[j] {
      assert candidates[..|d|][j] == d[j];
    }
    var r := FirstMissing(candidates, existing, 0);
    if r.Some? {
      assert d[r.value] != "";
    }
  }

  /** `removeScheduleRow(index)`: every row but the one at `index`, in order. */
  function RemoveScheduleRow(schedules: seq<string>, index: int): (r: seq<string>)
    ensures 0 <= index < |schedules| ==> |r| == |schedules| - 1
    ensures 0 <= index < |schedules| ==> r[..index] == schedules[..index]
    ensures 0 <= index < |schedules| ==> r[index..] == schedules[index + 1..]
    ensures !(0 <= index < |schedules|) ==> r == schedules
    decreases |schedules|
  {
    if schedules == [] then []
    else
      var rest := RemoveScheduleRow(schedules[1..], index - 1);
      assert schedules == [schedules[0]] + schedules[1..];
      (if index == 0 then [] else [schedules[0]]) + rest
  }

  /** The remove button is shown only for more than one row, so a row always remains. */
  lemma RemoveKeepsARow(schedules: seq<string>, index: int)
    requires |schedules| > 1 && 0 <= index < |schedules|
    ensures |RemoveScheduleRow(schedules, index)| >= 1
  {
  }

  /** Removing the row just added gives the rows back. */
  lemma AddThenRemove(schedules: seq<string>)
    ensures RemoveScheduleRow(AddScheduleRow(schedules), |schedules|) == schedules
  {
    var added := AddScheduleRow(schedules);
    var r := RemoveScheduleRow(added, |schedules|);
    assert r == r[..|schedules|] + r[|schedules|..];
  }

  // ------------------------------------------------------ schedule editor

  /** The part of a schedule a drop-down edits. */
  datatype Part = Month | Day | Hour | Minute

  /** The numbers an entry starts from: its captures, or 1월 1일 00:00 when it does not match. */
  function StartParts(current: string): (p: Parts)
    ensures Captured(p)
    ensures ScheduleMatch(current).Some? ==> p == ScheduleMatch(current).value
    ensures ScheduleMatch(current).None? ==> p == Parts(1, 1, 0, 0)
  {
    match ScheduleMatch(current)
    case Some(p) => p
    case None => Parts(1, 1, 0, 0)
  }

  /** `p` with one part replaced by `value`. */
  function WithPart(p: Parts, part: Part, value: nat): (q: Parts)
    ensures part == Month ==> q == p.(month := value)
    ensures part == Day ==> q == p.(day := value)
    ensures part == Hour ==> q == p.(hour := value)
    ensures part == Minute ==> q == p.(minute := value)
  {
    match part
    case Month => p.(month := value)
    case Day => p.(day := value)
    case Hour => p.(hour := value)
    case Minute => p.(minute := value)
  }

  /**
   * `handleSchedulePartChange(index, part, value)`, `value` being `Number` of
   * the chosen option: rewrites row `index` as a padded label with one part
   * changed.
   */
  method HandleSchedulePartChange(schedules: seq<string>, index: nat, part: Part, value: nat, dow: DayOracle)
    returns (updated: seq<string>)
    requires index < |schedules|
    ensures |updated| == |schedules|
    ensures forall i :: 0 <= i < |schedules| && i != index ==> updated[i] == schedules[i]
    ensures var p := WithPart(StartParts(schedules[index]), part, value);
      updated[index] == Label(p, DayPart(p, dow), true)
    ensures value < 100 ==>
      ScheduleMatch(updated[index]) == Some(WithPart(StartParts(schedules[index]), part, value))
  {
    var current := schedules[index];
    var match_ := ScheduleMatch(current);
    var month := if match_.Some? then match_.value.month else 1;
    var day := if match_.Some? then match_.value.day else 1;
    var hour := if match_.Some? then match_.value.hour else 0;
    var minute := if match_.Some? then match_.value.minute else 0;
    if part == Month { month := value; }
    if part == Day { day := value; }
    if part == Hour { hour := value; }
    if part == Minute { minute := value; }
    var p := Parts(month, day, hour, minute);
    assert p == WithPart(StartParts(current), part, value);
    var row := Label(p, DayPart(p, dow), true);
    if value < 100 {
      LabelRescan(p, DayPart(p, dow), true);
    }
    updated := schedules[index := row];
  }

  /** An entry that does not match starts from 1월 1일 00:00. */
  lemma EditFromScratch(schedules: seq<string>, index: nat, value: nat, dow: DayOracle)
    requires index < |schedules| && ScheduleMatch(schedules[index]).None? && value < 100
    ensures var p := WithPart(StartParts(schedules[index]), Month, value);
      p == Parts(value, 1, 0, 0) && ScheduleMatch(Label(p, DayPart(p, dow), true)) == Some(p)
  {
    var p := Parts(value, 1, 0, 0);
    LabelRescan(p, DayPart(p, dow), true);
  }

  // ---------------------------------------------------------- config load

  /** The settings form. */
  datatype FormConfig = FormConfig(
    schedules: seq<string>,
    details: string,
    bankName: string,
    accountNumber: string,
    depositor: string,
    price: string)

  /** The form before anything is loaded: the defaults. */
  const InitialConfig: FormConfig := FormConfig(
    FormDefaults.DefaultSchedules, FormDefaults.DefaultDetails, FormDefaults.DefaultBankName,
    FormDefaults.DefaultAccountNumber, FormDefaults.DefaultDepositor, FormDefaults.DefaultPrice)

  /** The JSON `GET /api/config` answered; `schedules` is `None` when it is not an array. */
  datatype ConfigPayload = ConfigPayload(
    schedules: Option<seq<string>>,
    details: Option<string>,
    bankName: Option<string>,
    accountNumber: Option<string>,
    depositor: Option<string>,
    price: Option<string>)

  /** `loadConfig()`: `response` is `None` when the reply is not OK or cannot be read. */
  function LoadConfig(prev: FormConfig, response: Option<ConfigPayload>): (r: FormConfig)
    ensures response.None? ==> r == prev
    ensures response.Some? ==> |r.schedules| > 0
    ensures response.Some? && response.value.schedules.Some? && |response.value.schedules.value| > 0
      ==> r.schedules == response.value.schedules.value
    ensures response.Some? && (response.value.schedules.None? || response.value.schedules.value == [])
      ==> r.schedules == FormDefaults.DefaultSchedules
    ensures response.Some? ==>
      && ConfigRoute.FallsBack(response.value.details, r.details, FormDefaults.DefaultDetails)
      && ConfigRoute.FallsBack(response.value.bankName, r.bankName, FormDefaults.DefaultBankName)
      && ConfigRoute.FallsBack(response.value.accountNumber, r.accountNumber, FormDefaults.DefaultAccountNumber)
      && ConfigRoute.FallsBack(response.value.depositor, r.depositor, FormDefaults.DefaultDepositor)
      && ConfigRoute.FallsBack(response.value.price, r.price, FormDefaults.DefaultPrice)
  {
    match response
    case None => prev
    case Some(data) =>
      FormConfig(
        if data.schedules.Some? && |data.schedules.value| > 0 then data.schedules.value
        else FormDefaults.DefaultSchedules,
        OrDefault(data.details, FormDefaults.DefaultDetails),
        OrDefault(data.bankName, FormDefaults.DefaultBankName),
        OrDefault(data.accountNumber, FormDefaults.DefaultAccountNumber),
        OrDefault(data.depositor, FormDefaults.DefaultDepositor),
        OrDefault(data.price, FormDefaults.DefaultPrice))
  }

  /** The JSON form of a GET reply. */
  function AsPayload(v: ConfigRoute.ConfigView): ConfigPayload {
    ConfigPayload(Some(v.schedules), Some(v.details), Some(v.bankName),
                  Some(v.accountNumber), Some(v.depositor), Some(v.price))
  }

  /** Loading what GET sent shows it unchanged: the page's fallbacks never fire on it. */
  lemma LoadShowsServerConfig(prev: FormConfig, record: Option<ConfigRoute.StoredConfig>, json: ConfigRoute.JsonArrays)
    ensures var v := ConfigRoute.GetConfig(record, json);
      LoadConfig(prev, Some(AsPayload(v)))
        == FormConfig(v.schedules, v.details, v.bankName, v.accountNumber, v.depositor, v.price)
  {
    ConfigRoute.GetFieldsNonEmpty(record, json);
  }

  /** The PUT body `handleConfigSave` sends for `form`, its price being the digit text `price`. */
  function SaveBody(form: FormConfig, price: ConfigRoute.DigitText): ConfigRoute.PutBody {
    ConfigRoute.PutBody(ConfigRoute.RawArray(form.schedules), Some(form.details), Some(form.bankName),
                        Some(form.accountNumber), Some(form.depositor), ConfigRoute.PriceDigits(price))
  }

  /** Every field filled in, trimmed, and the price written without a leading zero. */
  predicate CleanForm(form: FormConfig) {
    && form.schedules != []
    && (forall i :: 0 <= i < |form.schedules| ==> form.schedules[i] != "" && IsTrimmed(form.schedules[i]))
    && form.details != "" && IsTrimmed(form.details)
    && form.bankName != "" && IsTrimmed(form.bankName)
    && form.accountNumber != "" && IsTrimmed(form.accountNumber)
    && form.depositor != "" && IsTrimmed(form.depositor)
    && Canonical(form.price)
  }

  /**
   * `handleConfigSave` then `loadConfig`: an admin who saves a clean form
   * sees the same form after the reload.
   */
  lemma SaveThenReload(prev: FormConfig, form: FormConfig, price: ConfigRoute.DigitText,
                       cookie: Option<string>, env: AdminAuth.Env, now: string, json: ConfigRoute.JsonArrays)
    requires cookie.Some? ==> AdminAuth.IsAscii(cookie.value)
    requires AdminAuth.IsAdminAuthed(cookie, env)
    requires CleanForm(form) && price == form.price
    ensures var saved := ConfigRoute.PutConfig(cookie, env, SaveBody(form, price), false, now);
      && saved.PutSaved?
      && LoadConfig(prev, Some(AsPayload(ConfigRoute.GetConfig(Some(ConfigRoute.Stored(saved.row)), json)))) == form
  {
    var body := SaveBody(form, price);
    var row := ConfigRoute.PutConfig(cookie, env, body, false, now).row;
    ConfigRoute.TrimNonEmptyClean(form.schedules);
    TrimTrimmed(form.details);
    TrimTrimmed(form.bankName);
    TrimTrimmed(form.accountNumber);
    TrimTrimmed(form.depositor);
    ConfigRoute.CanonicalPriceKept(price);
    ConfigRoute.PutThenGet(cookie, env, body, now, json);
    LoadShowsServerConfig(prev, Some(ConfigRoute.Stored(row)), json);
  }
}
