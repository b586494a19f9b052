/** The entities of the order service: stock rows, stock movements, orders and
    their line items, the data-transfer objects the service receives, and the
    errors it raises. */
module Types {

  type ProductId = int
  type WarehouseId = int
  type OrderId = nat
  /** A wall-clock instant; the service receives it from its collaborator. */
  type Time = int

  datatype Option<+T> = None | Some(value: T)

  datatype Result<+T, +E> = Ok(value: T) | Err(error: E)

  /** The cause recorded with every stock movement. */
  datatype MovementType = OrderCreated | OrderUpdated | OrderCanceled | OrderResumed

  datatype Status = Active | Canceled | Completed

  /** A stock row is identified by the pair (product, warehouse). */
  datatype StockKey = StockKey(productId: ProductId, warehouseId: WarehouseId)

  /** The stock table: available quantity per (product, warehouse) row. */
  type Stock = map<StockKey, int>

  /** One audit entry of the movement log: a signed change of one stock row. */
  datatype StockMovement = StockMovement(
    productId: ProductId,
    warehouseId: WarehouseId,
    quantityChange: int,
    kind: MovementType)

  /** A requested or reserved position: a product and how many of it. */
  datatype OrderItem = OrderItem(productId: ProductId, count: int)

  datatype Order = Order(
    id: OrderId,
    customer: string,
    warehouseId: WarehouseId,
    status: Status,
    createdAt: Time,
    completedAt: Option<Time>,
    items: seq<OrderItem>)

  datatype CreateOrderDto = CreateOrderDto(customer: string, warehouseId: WarehouseId, items: seq<OrderItem>)

  /** Either field may be absent (null): an absent field is left as it is. */
  datatype UpdateOrderDto = UpdateOrderDto(customer: Option<string>, items: Option<seq<OrderItem>>)

  datatype Error =
    | InsufficientStock(productId: ProductId, requested: int, available: Option<int>)
    | CannotCancelOrder(orderId: OrderId)
    | CannotResumeOrder(orderId: OrderId)
    | CannotCompleteOrder(orderId: OrderId)

  /** What the request rules guarantee of every item: a count of at least one. */
  predicate PositiveCounts(items: seq<OrderItem>)
  {
    forall i :: 0 <= i < |items| ==> items[i].count >= 1
  }
}
