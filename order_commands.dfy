/** The order sample: creating an order and, when an order has been created, recording one
    delivery for it. The order and delivery-record repositories are maps from the id the
    database assigns to the stored value. */
module OrderCommands {
  import opened Wrappers
  import opened Text

  type OrderId = int
  type DeliverRecordId = int

  const MaxNameLength := 10
  const MinPrice := 18
  const MaxPrice := 60
  /** The rules a create-order command can break, in rule order. */
  datatype OrderError = NameEmpty | NameTooLong(length: nat) | PriceOutOfRange(price: int)

  /** The validator's default message for each broken rule. */
  function Message(e: OrderError): string {
    match e
    case NameEmpty => "'Name' must not be empty."
    case NameTooLong(length) =>
      "The length of 'Name' must be 10 characters or fewer. You entered " + DecimalText(length) + " characters."
    case PriceOutOfRange(price) =>
      "'Price' must be between 18 and 60. You entered " + DecimalText(price) + "."
  }

  function Messages(errors: seq<OrderError>): (ms: seq<string>)
    ensures |ms| == |errors|
  {
    seq(|errors|, i requires 0 <= i < |errors| => Message(errors[i]))
  }

  /** What a new order stores: the name and the count, not the price. */
  datatype Order = Order(name: string, count: int)

  datatype CreateOrderCommand = CreateOrderCommand(name: string, price: int, count: int)

  /** Both rules of the name run, then the price rule; the count is not checked. */
  function ValidateCreateOrder(c: CreateOrderCommand): (errors: seq<OrderError>)
    ensures errors == [] <==>
              !IsBlank(c.name) && |c.name| <= MaxNameLength && MinPrice <= c.price <= MaxPrice
    ensures NameEmpty in errors <==> IsBlank(c.name)
    ensures NameTooLong(|c.name|) in errors <==> |c.name| > MaxNameLength
    ensures PriceOutOfRange(c.price) in errors <==> c.price < MinPrice || c.price > MaxPrice
  {
    (if IsBlank(c.name) then [NameEmpty] else [])
    + (if |c.name| > MaxNameLength then [NameTooLong(|c.name|)] else [])
    + (if c.price < MinPrice || c.price > MaxPrice then [PriceOutOfRange(c.price)] else [])
  }

  /** Any count, negative or zero included, is accepted once name and price pass. */
  lemma CountNotValidated(c: CreateOrderCommand, count: int)
    ensures ValidateCreateOrder(c) == ValidateCreateOrder(c.(count := count))
  {
  }

  /** Stores one new order under the id the database assigns (`newId`) and returns that id;
      the stored orders already there stay as they were. */
  method CreateOrder(orders: map<OrderId, Order>, c: CreateOrderCommand, newId: OrderId)
    returns (reply: Reply<OrderId>, stored: map<OrderId, Order>)
    requires newId !in orders
    ensures ValidateCreateOrder(c) != [] ==> reply == Invalid(Messages(ValidateCreateOrder(c))) && stored == orders
    ensures ValidateCreateOrder(c) == [] ==>
              reply == Done(newId) && stored == orders[newId := Order(c.name, c.count)]
    ensures reply.Done? ==> reply.value in stored && reply.value !in orders
  {
    var errors := ValidateCreateOrder(c);
    if errors != [] {
      return Invalid(Messages(errors)), orders;
    }
    var order := Order(c.name, c.count);
    stored := orders[newId := order];
    reply := Done(newId);
  }

  /** A record that goods were delivered for an order. */
  datatype DeliverRecord = DeliverRecord(orderId: OrderId)

  datatype DeliverGoodsCommand = DeliverGoodsCommand(orderId: OrderId)

  /** Adds exactly one record, for the command's order, and returns its id. */
  method DeliverGoods(records: map<DeliverRecordId, DeliverRecord>, c: DeliverGoodsCommand, newId: DeliverRecordId)
    returns (id: DeliverRecordId, stored: map<DeliverRecordId, DeliverRecord>)
    requires newId !in records
    ensures id !in records && stored.Keys == records.Keys + {id}
    ensures stored[id].orderId == c.orderId
    ensures forall r :: r in records ==> stored[r] == records[r]
  {
    var record := DeliverRecord(c.orderId);
    stored := records[newId := record];
    id := newId;
  }

  /** The handler of the order-created event: sends one delivery command carrying the new
      order's id, so exactly one record for that order is added. */
  method OnOrderCreated(records: map<DeliverRecordId, DeliverRecord>, createdOrder: OrderId, newId: DeliverRecordId)
    returns (stored: map<DeliverRecordId, DeliverRecord>)
    requires newId !in records
    ensures |stored.Keys| == |records.Keys| + 1 && records.Keys <= stored.Keys
    ensures forall r :: r in records ==> stored[r] == records[r]
    ensures forall r :: r in stored && r !in records ==> stored[r] == DeliverRecord(createdOrder)
  {
    var id;
    id, stored := DeliverGoods(records, DeliverGoodsCommand(createdOrder), newId);
    assert stored.Keys == records.Keys + {id};
  }
}
