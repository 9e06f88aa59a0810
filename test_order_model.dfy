/** The test module's order record and the check of its compact
    constructor. */
module TestOrderModel {
  import opened Common

  /** Only the CREATED constant of the order status enum is used here. */
  datatype OrderStatus = Created

  datatype OrderRecord = OrderRecord(id: Option<int>, customerId: string, status: Option<OrderStatus>, requestId: Option<string>)

  /** A Java Order instance: its constructor refused a blank customer id;
      id, status and request id are not checked. */
  type Order = o: OrderRecord | !IsBlank(o.customerId)
    // the assert exhibits the non-whitespace character that IsBlank quantifies over
    witness assert "c"[0] == 'c'; OrderRecord(None, "c", None, None)

  const CustomerIdCannotBeBlank := "Customer ID cannot be blank"

  /** `new Order(id, customerId, status, requestId)`. */
  function NewOrder(id: Option<int>, customerId: Option<string>, status: Option<OrderStatus>, requestId: Option<string>)
    : (r: Result<Order, Failure>)
    ensures r.Ok? <==> !IsNullOrBlank(customerId)
    ensures r.Ok? ==> r.value == OrderRecord(id, customerId.value, status, requestId)
    ensures r.Err? ==> r.error == IllegalArgument(CustomerIdCannotBeBlank)
  {
    if IsNullOrBlank(customerId) then Err(IllegalArgument(CustomerIdCannotBeBlank))
    else Ok(OrderRecord(id, customerId.value, status, requestId))
  }
}
