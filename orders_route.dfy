/** `POST /api/orders` (src/app/api/orders/route.ts): validating and storing a new order. */
module OrdersRoute {
  import opened Wrappers
  import opened JsString
  import opened Orders

  /**
   * The request body. A text field is `None` when it is absent or null and
   * otherwise holds the string sent; every field value is taken to be a
   * string already. `agreed` is `Some(b)` only for a JSON boolean.
   */
  datatype OrderBody = OrderBody(
    name: Option<string>,
    phone: Option<string>,
    schedule: Option<string>,
    agreed: Option<bool>)

  /** What `notifyNewOrder` is handed: the stored id, name, phone and schedule. */
  datatype Notice = Notice(id: string, name: string, phone: string, schedule: string)

  /** The reply, with the notification it triggers when there is one. */
  datatype SubmitResult =
    | Rejected
    | SaveFailed
    | Created(order: Order, notice: Notice)
  {
    function Status(): nat {
      match this
      case Rejected => 400
      case SaveFailed => 500
      case Created(_, _) => 201
    }
  }

  /** The guard: every required field truthy and `agreed === true`. */
  predicate Acceptable(body: OrderBody) {
    Truthy(body.name) && Truthy(body.phone) && Truthy(body.schedule) && body.agreed == Some(true)
  }

  /**
   * The route. `storeFails` is whether the insert reports an error; `id` and
   * `createdAt` are the columns the store fills in.
   */
  function SubmitOrder(body: OrderBody, storeFails: bool, id: string, createdAt: int): (r: SubmitResult)
    ensures r.Rejected? <==> !Acceptable(body)
    ensures r.SaveFailed? <==> Acceptable(body) && storeFails
    ensures r.Created? ==>
      && r.order.name == Trim(body.name.value)
      && r.order.phone == Trim(body.phone.value)
      && r.order.schedule == Trim(body.schedule.value)
      && r.order.agreed
      && r.order.status == Pending
      && r.order.id == id && r.order.createdAt == createdAt
    ensures r.Created? ==>
      r.notice == Notice(r.order.id, r.order.name, r.order.phone, r.order.schedule)
  {
    if !Acceptable(body) then Rejected
    else
      var order := Order(id, Trim(body.name.value), Trim(body.phone.value),
                         Trim(body.schedule.value), true, Pending, createdAt);
      if storeFails then SaveFailed
      else Created(order, Notice(order.id, order.name, order.phone, order.schedule))
  }

  /** Every stored text field is trimmed. */
  lemma CreatedIsTrimmed(body: OrderBody, storeFails: bool, id: string, createdAt: int)
    requires SubmitOrder(body, storeFails, id, createdAt).Created?
    ensures var o := SubmitOrder(body, storeFails, id, createdAt).order;
      IsTrimmed(o.name) && IsTrimmed(o.phone) && IsTrimmed(o.schedule)
  {
  }

  /** The check looks at the untrimmed text: a blank name gets through and is stored as "". */
  lemma BlankNameStoredEmpty(name: string, phone: string, schedule: string, id: string, createdAt: int)
    requires name != "" && forall i :: 0 <= i < |name| ==> IsSpace(name[i])
    requires phone != "" && schedule != ""
    ensures var r := SubmitOrder(OrderBody(Some(name), Some(phone), Some(schedule), Some(true)), false, id, createdAt);
      r.Created? && r.order.name == "" && r.Status() == 201
  {
  }

  /** Without `agreed: true` nothing is stored, whatever the other fields. */
  lemma AgreementRequired(body: OrderBody, storeFails: bool, id: string, createdAt: int)
    requires body.agreed != Some(true)
    ensures SubmitOrder(body, storeFails, id, createdAt).Status() == 400
  {
  }
}
