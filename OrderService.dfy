/** The order service as the source runs it: a stock table, a movement log and
    the orders held in fields, changed one row, one movement and one line item
    at a time. A transaction is a snapshot of the fields taken when it opens;
    an error restores the snapshot. Each public method is proved to leave the
    fields exactly as the corresponding function of module Lifecycle says. */
module Service {
  import opened Types
  import opened Ledger
  import opened Lifecycle

  class OrderService {
    var stock: Stock
    var movements: seq<StockMovement>
    var orders: map<OrderId, Order>
    var nextId: OrderId
    /** The stock table the service was seeded with, for the reconciliation. */
    ghost const seed: Stock

    function State(): Db
      reads this
    {
      Db(stock, movements, orders, nextId)
    }

    /** The standing invariant, every line item has a stock row, and each row
        is its seed plus the signed sum of the movements logged for it. */
    ghost predicate Valid()
      reads this
    {
      Consistent(State()) && Stocked(State()) && Reconciled(seed, State())
    }

    /** A service over a seeded stock table, with no orders and no movements yet. */
    constructor (initial: Stock)
      requires NonNegative(initial)
      ensures Valid()
      ensures State() == Db(initial, [], map[], 1) && seed == initial
    {
      seed := initial;
      stock := initial;
      movements := [];
      orders := map[];
      nextId := 1;
    }

    /** Aborting a transaction: every field goes back to the snapshot. */
    method Rollback(snapshot: Db)
      modifies this
      ensures State() == snapshot
    {
      stock, movements, orders, nextId := snapshot.stock, snapshot.movements, snapshot.orders, snapshot.nextId;
    }

    /** checkAndLockStock: the row must exist and hold at least the quantity;
        otherwise the error names the product, the quantity and what the row
        holds, or none when there is no row. */
    method CheckAndLockStock(productId: ProductId, warehouseId: WarehouseId, quantity: int)
      returns (r: Result<int, Error>)
      ensures var k := StockKey(productId, warehouseId);
              r.Ok? <==> k in stock && stock[k] >= quantity
      ensures r.Ok? ==> r.value == stock[StockKey(productId, warehouseId)]
      ensures r.Err? ==> r.error == InsufficientStock(productId, quantity, Available(stock, StockKey(productId, warehouseId)))
    {
      var k := StockKey(productId, warehouseId);
      if k !in stock {
        r := Err(InsufficientStock(productId, quantity, None));
      } else if stock[k] < quantity {
        r := Err(InsufficientStock(productId, quantity, Some(stock[k])));
      } else {
        r := Ok(stock[k]);
      }
    }

    /** decrementStockAndCreateMovement: a checked decrement of one row and one
        negative movement; a failed check changes nothing. */
    method DecrementStockAndCreateMovement(productId: ProductId, warehouseId: WarehouseId, quantity: int, kind: MovementType)
      returns (err: Option<Error>)
      modifies this`stock, this`movements
      ensures match Debit(old(stock), warehouseId, OrderItem(productId, quantity))
              case Err(e) => err == Some(e) && stock == old(stock) && movements == old(movements)
              case Ok(s) => err == None && stock == s
                            && movements == old(movements) + [StockMovement(productId, warehouseId, -quantity, kind)]
    {
      var checked := CheckAndLockStock(productId, warehouseId, quantity);
      if checked.Err? {
        return Some(checked.error);
      }
      var k := StockKey(productId, warehouseId);
      stock := stock[k := stock[k] - quantity];
      movements := movements + [StockMovement(productId, warehouseId, -quantity, kind)];
      err := None;
    }

    /** The partial state processOrderItems leaves when item j is the first
        that does not fit: the items before j are applied, nothing else. */
    ghost predicate StoppedAt(before: Db, after: Db, id: OrderId, items: seq<OrderItem>, kind: MovementType, j: int, e: Error)
      requires id in before.orders
    {
      var w, o := before.orders[id].warehouseId, before.orders[id];
      && 0 <= j < |items|
      && Reserve(before.stock, w, items[..j]) == Ok(after.stock)
      && Debit(after.stock, w, items[j]) == Err(e)
      && after.movements == before.movements + Outgoing(w, items[..j], kind)
      && after.orders == before.orders[id := o.(items := o.items + items[..j])]
      && after.nextId == before.nextId
    }

    /** processOrderItems: reserve each item in turn and append it to the
        order's line items. On a shortage it stops at the first failing item,
        with the items before it already applied; the caller rolls back. */
    method ProcessOrderItems(id: OrderId, items: seq<OrderItem>, kind: MovementType) returns (err: Option<Error>)
      requires id in orders
      modifies this`stock, this`movements, this`orders
      ensures var w, o := old(orders[id].warehouseId), old(orders[id]);
              match Reserve(old(stock), w, items)
              case Ok(s) =>
                && err == None && stock == s
                && movements == old(movements) + Outgoing(w, items, kind)
                && orders == old(orders)[id := o.(items := o.items + items)]
              case Err(e) =>
                && err == Some(e)
                && exists j :: StoppedAt(old(State()), State(), id, items, kind, j, e)
    {
      var w := orders[id].warehouseId;
      ghost var o := orders[id];
      assert o.items + items[..0] == o.items;
      assert old(orders)[id := o] == orders;
      var i := 0;
      while i < |items|
        invariant 0 <= i <= |items|
        invariant Reserve(old(stock), w, items[..i]) == Ok(stock)
        invariant movements == old(movements) + Outgoing(w, items[..i], kind)
        invariant orders == old(orders)[id := o.(items := o.items + items[..i])]
      {
        assert items[..i + 1][..i] == items[..i];
        err := DecrementStockAndCreateMovement(items[i].productId, w, items[i].count, kind);
        if err.Some? {
          ReserveFailsAt(old(stock), w, items, i, stock);
          assert StoppedAt(old(State()), State(), id, items, kind, i, err.value);
          return;
        }
        orders := orders[id := orders[id].(items := orders[id].items + [items[i]])];
        assert o.items + items[..i + 1] == o.items + items[..i] + [items[i]];
        i := i + 1;
      }
      assert items[..i] == items;
      err := None;
    }

    /** returnItemsToStock: one unchecked increment and one positive movement
        per line item; a missing row stays missing but the movement is still
        recorded. */
    method ReturnItemsToStock(id: OrderId, kind: MovementType)
      requires id in orders
      modifies this`stock, this`movements
      ensures stock == ReturnAll(old(stock), orders[id].warehouseId, orders[id].items)
      ensures movements == old(movements) + Incoming(orders[id].warehouseId, orders[id].items, kind)
    {
      var w := orders[id].warehouseId;
      var items := orders[id].items;
      var i := 0;
      while i < |items|
        invariant 0 <= i <= |items|
        invariant stock == ReturnAll(old(stock), w, items[..i])
        invariant movements == old(movements) + Incoming(w, items[..i], kind)
      {
        assert items[..i + 1][..i] == items[..i];
        var k := StockKey(items[i].productId, w);
        if k in stock {
          stock := stock[k := stock[k] + items[i].count];
        }
        movements := movements + [StockMovement(items[i].productId, w, items[i].count, kind)];
        i := i + 1;
      }
      assert items[..i] == items;
    }

    /** validateStockAvailability: every item against the current table, with
        no lock and no change; the first item that does not fit is reported. */
    method ValidateStockAvailability(items: seq<OrderItem>, warehouseId: WarehouseId) returns (err: Option<Error>)
      ensures err == PreCheck(stock, warehouseId, items)
      ensures err.None? <==> forall j :: 0 <= j < |items| ==>
                Key(warehouseId, items[j]) in stock && stock[Key(warehouseId, items[j])] >= items[j].count
    {
      PreCheckPassesIff(stock, warehouseId, items);
      var i := 0;
      while i < |items|
        invariant 0 <= i <= |items|
        invariant PreCheck(stock, warehouseId, items[..i]).None?
      {
        assert items[..i + 1][..i] == items[..i];
        var k := StockKey(items[i].productId, warehouseId);
        if k !in stock || stock[k] < items[i].count {
          err := Some(InsufficientStock(items[i].productId, items[i].count, Available(stock, k)));
          PreCheckFailsAt(stock, warehouseId, items, i);
          return;
        }
        i := i + 1;
      }
      assert items[..i] == items;
      err := None;
    }

    /** createOrder. */
    method CreateOrder(dto: CreateOrderDto, now: Time) returns (r: Result<Order, Error>)
      requires Valid()
      requires |dto.items| >= 1 && PositiveCounts(dto.items)
      modifies this
      ensures Valid()
      ensures (State(), r) == Create(old(State()), dto, now)
    {
      var snapshot := State();
      var pre := ValidateStockAvailability(dto.items, dto.warehouseId);
      if pre.Some? {
        Rollback(snapshot);
        return Err(pre.value);
      }
      var id := nextId;
      nextId := nextId + 1;
      orders := orders[id := Order(id, dto.customer, dto.warehouseId, Active, now, None, [])];
      var err := ProcessOrderItems(id, dto.items, OrderCreated);
      if err.Some? {
        Rollback(snapshot);
        return Err(err.value);
      }
      assert [] + dto.items == dto.items;
      var o := Order(id, dto.customer, dto.warehouseId, Active, now, None, dto.items);
      assert Reserve(snapshot.stock, dto.warehouseId, dto.items).Ok?;
      assert stock == Reserve(snapshot.stock, dto.warehouseId, dto.items).value;
      assert orders == snapshot.orders[id := o];
      r := Ok(orders[id]);
      assert r == Ok(o);
      assert (State(), r) == Create(snapshot, dto, now);
      CreatePreserves(seed, snapshot, dto, now);
    }
    /** updateOrder: no status check. A given customer replaces the old one; a
        given item list returns every old item to stock, drops the old line
        items and reserves the new ones, all in one transaction. */
    method UpdateOrder(id: OrderId, dto: UpdateOrderDto) returns (r: Result<Order, Error>)
      requires Valid()
      requires id in orders
      requires dto.items.Some? ==> PositiveCounts(dto.items.value)
      modifies this
      ensures Valid()
      ensures (State(), r) == Update(old(State()), id, dto)
    {
      var snapshot := State();
      if dto.customer.Some? {
        orders := orders[id := orders[id].(customer := dto.customer.value)];
      }
      assert State() == Rename(snapshot, id, dto.customer);
      if dto.items.None? {
        r := Ok(orders[id]);
      } else {
        r := ReplaceItems(id, dto.items.value);
        if r.Err? {
          Rollback(snapshot);
        }
      }
      assert Valid() by { UpdatePreserves(seed, snapshot, id, dto); }
    }

    /** The item branch of updateOrder, without the rollback its caller does. */
    method ReplaceItems(id: OrderId, items: seq<OrderItem>) returns (r: Result<Order, Error>)
      requires id in orders
      modifies this
      ensures r == Replace(old(State()), id, items).1
      ensures r.Ok? ==> State() == Replace(old(State()), id, items).0
    {
      ghost var before := State();
      ghost var o := orders[id];
      ghost var returned := ReturnAll(stock, o.warehouseId, o.items);
      ReturnItemsToStock(id, OrderUpdated);
      orders := orders[id := orders[id].(items := [])];
      ghost var cleared := orders;
      assert stock == returned;
      var err := ProcessOrderItems(id, items, OrderUpdated);
      if err.Some? {
        assert Reserve(returned, o.warehouseId, items) == Err(err.value);
        return Err(err.value);
      }
      assert Reserve(returned, o.warehouseId, items).Ok?;
      assert orders == cleared[id := cleared[id].(items := cleared[id].items + items)];
      assert [] + items == items;
      assert orders == before.orders[id := o.(items := items)];
      r := Ok(orders[id]);
    }

    /** cancelOrder: refused unless the order is active or completed; otherwise
        every line item goes back to stock and the order becomes canceled. */
    method CancelOrder(id: OrderId) returns (r: Result<(), Error>)
      requires Valid()
      requires id in orders
      modifies this
      ensures Valid()
      ensures (State(), r) == Cancel(old(State()), id)
    {
      if orders[id].status != Active && orders[id].status != Completed {
        return Err(CannotCancelOrder(id));
      }
      ghost var snapshot := State();
      ReturnItemsToStock(id, OrderCanceled);
      orders := orders[id := orders[id].(status := Canceled)];
      r := Ok(());
      CancelPreserves(seed, snapshot, id);
    }

    /** resumeOrder: refused unless the order is canceled; otherwise every line
        item is reserved again and the order becomes active, or, on a
        shortage, the transaction is rolled back. */
    method ResumeOrder(id: OrderId) returns (r: Result<(), Error>)
      requires Valid()
      requires id in orders
      modifies this
      ensures Valid()
      ensures (State(), r) == Resume(old(State()), id)
    {
      if orders[id].status != Canceled {
        return Err(CannotResumeOrder(id));
      }
      var snapshot := State();
      var w := orders[id].warehouseId;
      var items := orders[id].items;
      var i := 0;
      while i < |items|
        invariant 0 <= i <= |items|
        invariant Reserve(snapshot.stock, w, items[..i]) == Ok(stock)
        invariant movements == snapshot.movements + Outgoing(w, items[..i], OrderResumed)
        invariant orders == snapshot.orders && nextId == snapshot.nextId
      {
        assert items[..i + 1][..i] == items[..i];
        var err := DecrementStockAndCreateMovement(items[i].productId, w, items[i].count, OrderResumed);
        if err.Some? {
          ResumeFailsAt(snapshot, id, i, stock);
          Rollback(snapshot);
          return Err(err.value);
        }
        i := i + 1;
      }
      assert items[..i] == items;
      orders := orders[id := orders[id].(status := Active)];
      r := Ok(());
      ResumePreserves(seed, snapshot, id);
    }

    /** completeOrder: refused unless the order is active; otherwise the order
        becomes completed at the given time. */
    method CompleteOrder(id: OrderId, now: Time) returns (r: Result<(), Error>)
      requires Valid()
      requires id in orders
      modifies this
      ensures Valid()
      ensures (State(), r) == Complete(old(State()), id, now)
    {
      if orders[id].status != Active {
        return Err(CannotCompleteOrder(id));
      }
      ghost var snapshot := State();
      orders := orders[id := orders[id].(status := Completed, completedAt := Some(now))];
      r := Ok(());
      CompletePreserves(seed, snapshot, id, now);
    }
  }
}
