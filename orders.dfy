/**
 * Order rows as the `orders` table stores them, the status/schedule filter
 * that both the admin API and the admin page apply, and the newest-first
 * order the admin query asks the store for.
 */
module Orders {
  import opened Seqs

  /**
   * One order row. `status` and `schedule` are text; the empty string stands
   * for a missing (null) value, which every shown use treats like "".
   * `createdAt` is the `created_at` timestamp as a comparable number.
   */
  datatype Order = Order(
    id: string,
    name: string,
    phone: string,
    schedule: string,
    agreed: bool,
    status: string,
    createdAt: int)

  const Pending: string := "pending"
  const Confirmed: string := "confirmed"
  const Cancelled: string := "cancelled"

  /** `value || fallback` for a count key: the value itself, or the fallback when it is empty. */
  function KeyOr(value: string, fallback: string): (k: string)
    requires fallback != ""
    ensures k != ""
    ensures value != "" ==> k == value
    ensures value == "" ==> k == fallback
  {
    if value != "" then value else fallback
  }

  /** An empty filter accepts everything; a non-empty one demands that exact value. */
  predicate FieldMatches(filter: string, value: string) {
    filter == "" || value == filter
  }

  /** Both filters hold for `o`. */
  predicate Matches(o: Order, statusFilter: string, scheduleFilter: string) {
    FieldMatches(statusFilter, o.status) && FieldMatches(scheduleFilter, o.schedule)
  }

  /** The orders that pass both filters, in their order. */
  function FilterOrders(orders: seq<Order>, statusFilter: string, scheduleFilter: string): (r: seq<Order>)
    ensures forall i :: 0 <= i < |r| ==> Matches(r[i], statusFilter, scheduleFilter)
  {
    Filter(orders, o => Matches(o, statusFilter, scheduleFilter))
  }

  /** The filter keeps exactly the matching orders, each as often as it occurs, in order. */
  lemma FilterOrdersExact(orders: seq<Order>, statusFilter: string, scheduleFilter: string, o: Order)
    ensures var r := FilterOrders(orders, statusFilter, scheduleFilter);
      && SubsequenceOf(r, orders)
      && multiset(r)[o] == (if Matches(o, statusFilter, scheduleFilter) then multiset(orders)[o] else 0)
  {
    FilterSubsequence(orders, o => Matches(o, statusFilter, scheduleFilter));
    FilterCount(orders, o => Matches(o, statusFilter, scheduleFilter), o);
  }

  /** Two empty filters keep every order. */
  lemma NoFilterKeepsAll(orders: seq<Order>)
    ensures FilterOrders(orders, "", "") == orders
  {
    FilterAll(orders, o => Matches(o, "", ""));
  }

  /** Newest first. */
  predicate NewestFirst(s: seq<Order>) {
    forall i, j :: 0 <= i < j < |s| ==> s[i].createdAt >= s[j].createdAt
  }

  /** Puts `o` in front of the first order in `s` that is not newer than it. */
  function InsertByCreated(o: Order, s: seq<Order>): (r: seq<Order>)
    requires NewestFirst(s)
    ensures NewestFirst(r)
    ensures multiset(r) == multiset(s) + multiset{o}
    ensures |r| == |s| + 1 && (r[0] == o || (s != [] && r[0] == s[0]))
    decreases |s|
  {
    if s == [] || o.createdAt >= s[0].createdAt then
      [o] + s
    else
      var rest := InsertByCreated(o, s[1..]);
      assert s == [s[0]] + s[1..];
      InsertHead(s[0], rest);
      [s[0]] + rest
  }

  /** An order at least as new as the head of a newest-first list can go in front. */
  lemma InsertHead(x: Order, rest: seq<Order>)
    requires NewestFirst(rest)
    requires rest != [] ==> x.createdAt >= rest[0].createdAt
    ensures NewestFirst([x] + rest)
  {
    var r := [x] + rest;
    forall i, j | 0 <= i < j < |r| ensures r[i].createdAt >= r[j].createdAt {
      if i == 0 {
        assert r[j] == rest[j - 1];
        if j > 1 { assert rest[0].createdAt >= rest[j - 1].createdAt; }
      } else {
        assert r[i] == rest[i - 1] && r[j] == rest[j - 1];
      }
    }
  }

  /** `order('created_at', { ascending: false })`: the same orders, newest first. */
  function SortNewestFirst(s: seq<Order>): (r: seq<Order>)
    ensures NewestFirst(r)
    ensures multiset(r) == multiset(s)
    decreases |s|
  {
    if s == [] then []
    else
      assert s == [s[0]] + s[1..];
      InsertByCreated(s[0], SortNewestFirst(s[1..]))
  }
}
