/**
 * `GET /api/admin/orders` (src/app/api/admin/orders/route.ts): the admin
 * gate, the store query built filter by filter, and the per-status and
 * per-schedule counts.
 */
module AdminOrdersRoute {
  import opened Wrappers
  import opened JsString
  import opened Seqs
  import opened Orders
  import opened Counting
  import AdminAuth

  /** The store query: `created_at` descending, with optional `eq` filters. */
  datatype Query = Query(newestFirst: bool, statusEq: Option<string>, scheduleEq: Option<string>)

  /** `o` passes the query's `eq` filters. */
  predicate QueryMatches(q: Query, o: Order) {
    (q.statusEq.None? || o.status == q.statusEq.value)
    && (q.scheduleEq.None? || o.schedule == q.scheduleEq.value)
  }

  /** What the store answers for `q` over the `orders` table. */
  function Execute(q: Query, table: seq<Order>): (r: seq<Order>)
    ensures q.newestFirst ==> NewestFirst(r)
    ensures multiset(r) == multiset(Filter(table, o => QueryMatches(q, o)))
  {
    var matching := Filter(table, o => QueryMatches(q, o));
    if q.newestFirst then SortNewestFirst(matching) else matching
  }

  /** The counts the route reports. */
  datatype Summary = Summary(total: nat, statusCounts: map<string, nat>, scheduleCounts: map<string, nat>)

  datatype ListResult =
    | ListUnauthorized
    | ListFailed
    | Listed(orders: seq<Order>, summary: Summary)
  {
    function Status(): nat {
      match this
      case ListUnauthorized => 401
      case ListFailed => 500
      case Listed(_, _) => 200
    }
  }

  /** `order.status || 'unknown'`. */
  function StatusKey(o: Order): string {
    KeyOr(o.status, "unknown")
  }

  /** `order.schedule || 'unspecified'`. */
  function ScheduleKey(o: Order): string {
    KeyOr(o.schedule, "unspecified")
  }

  /** The query the route builds from the `status` and `schedule` search parameters. */
  function BuiltQuery(status: Option<string>, schedule: Option<string>): Query {
    Query(true, if Truthy(status) then status else None, if Truthy(schedule) then schedule else None)
  }

  /** The store filter and the admin page's filter agree, with "" or a missing parameter meaning "any". */
  lemma QueryAgreesWithPageFilter(status: Option<string>, schedule: Option<string>, o: Order)
    ensures QueryMatches(BuiltQuery(status, schedule), o)
      <==> Matches(o, OrDefault(status, ""), OrDefault(schedule, ""))
  {
  }

  /** Counts `f(o)` for every order of `orders` into an empty map, one order at a time. */
  method CountBy(orders: seq<Order>, f: Order -> string) returns (counts: map<string, nat>)
    ensures counts == Tally(map[], Map(orders, f))
  {
    counts := map[];
    var i := 0;
    while i < |orders|
      invariant 0 <= i <= |orders|
      invariant counts == Tally(map[], Map(orders[..i], f))
    {
      var key := f(orders[i]);
      TallyMapStep(map[], orders, f, i);
      counts := counts[key := Get(counts, key) + 1];
      i := i + 1;
    }
    assert orders[..i] == orders;
  }

  /**
   * The route. `cookie`/`env` decide the admin gate, `status`/`schedule` are
   * the search parameters (`None` when absent), `table` is the `orders`
   * table and `storeFails` whether the query reports an error.
   */
  method ListOrders(cookie: Option<string>, env: AdminAuth.Env,
                    status: Option<string>, schedule: Option<string>,
                    table: seq<Order>, storeFails: bool) returns (r: ListResult)
    requires cookie.Some? ==> AdminAuth.IsAscii(cookie.value)
    ensures r.ListUnauthorized? <==> AdminAuth.RequireAdmin(cookie, env).Some?
    ensures r.ListFailed? <==> AdminAuth.IsAdminAuthed(cookie, env) && storeFails
    ensures r.Listed? ==> r.orders == Execute(BuiltQuery(status, schedule), table)
    ensures r.Listed? ==> r.summary.total == |r.orders|
    ensures r.Listed? ==> r.summary.statusCounts == Tally(map[], Map(r.orders, StatusKey))
    ensures r.Listed? ==> r.summary.scheduleCounts == Tally(map[], Map(r.orders, ScheduleKey))
  {
    if AdminAuth.RequireAdmin(cookie, env).Some? {
      return ListUnauthorized;
    }
    var query := Query(true, None, None);
    if Truthy(status) {
      query := query.(statusEq := status);
    }
    if Truthy(schedule) {
      query := query.(scheduleEq := schedule);
    }
    if storeFails {
      return ListFailed;
    }
    var orders := Execute(query, table);
    var statusCounts := CountBy(orders, StatusKey);
    var scheduleCounts := CountBy(orders, ScheduleKey);
    r := Listed(orders, Summary(|orders|, statusCounts, scheduleCounts));
  }

  /**
   * The listed orders are exactly the table's orders that pass the filters,
   * newest first; with no filter, all of them.
   */
  lemma ListedOrders(status: Option<string>, schedule: Option<string>, table: seq<Order>, o: Order)
    ensures var listed := Execute(BuiltQuery(status, schedule), table);
      && NewestFirst(listed)
      && multiset(listed)[o] == (if Matches(o, OrDefault(status, ""), OrDefault(schedule, ""))
                                then multiset(table)[o] else 0)
  {
    var q := BuiltQuery(status, schedule);
    FilterCount(table, o => QueryMatches(q, o), o);
    QueryAgreesWithPageFilter(status, schedule, o);
  }

  /**
   * Each count is the number of listed orders with that key, and the counts
   * add up to the total.
   */
  lemma CountsAddUp(orders: seq<Order>, f: Order -> string, k: string)
    ensures var counts := Tally(map[], Map(orders, f));
      && (k in counts <==> exists i :: 0 <= i < |orders| && f(orders[i]) == k)
      && Get(counts, k) == multiset(Map(orders, f))[k]
      && SumValues(counts) == |orders|
  {
    var keys := Map(orders, f);
    TallyCounts(map[], keys, k);
    TallySum(map[], keys);
    if k in keys {
      var i :| 0 <= i < |keys| && keys[i] == k;
      assert f(orders[i]) == k;
    }
  }
}
