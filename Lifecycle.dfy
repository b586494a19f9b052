/** The order lifecycle as a function of the whole database: what each of the
    five operations does to the stock table, the movement log and the orders,
    with the transaction's rollback on every error. */
module Lifecycle {
  import opened Types
  import opened Ledger

  /** Everything the service reads and writes. */
  datatype Db = Db(
    stock: Stock,
    movements: seq<StockMovement>,
    orders: map<OrderId, Order>,
    nextId: OrderId)

  /** The standing invariant: no row is negative, every order is stored under
      its own id below the next id, and every line item's count is positive. */
  predicate Consistent(db: Db)
  {
    && NonNegative(db.stock)
    && (forall id :: id in db.orders ==>
          db.orders[id].id == id && id < db.nextId && PositiveCounts(db.orders[id].items))
  }

  /** Every line item of every order has a stock row in its order's warehouse. */
  predicate Stocked(db: Db)
  {
    forall id, j :: id in db.orders && 0 <= j < |db.orders[id].items| ==>
      Key(db.orders[id].warehouseId, db.orders[id].items[j]) in db.stock
  }

  /** The ledger agrees with the movement log: each row is its seeded quantity
      plus the signed sum of the movements recorded for it. */
  predicate Reconciled(initial: Stock, db: Db)
  {
    && db.stock.Keys == initial.Keys
    && forall k :: k in initial ==> db.stock[k] == initial[k] + Net(db.movements, k)
  }

  // ---------------------------------------------------------------------------
  // The status state machine

  datatype Operation = Updating | Canceling | Resuming | Completing

  /** The transitions the service performs: (from, operation, to). */
  const Transitions: set<(Status, Operation, Status)> := {
    (Active, Updating, Active), (Canceled, Updating, Canceled), (Completed, Updating, Completed),
    (Active, Canceling, Canceled), (Completed, Canceling, Canceled),
    (Canceled, Resuming, Active),
    (Active, Completing, Completed)
  }

  predicate Permitted(from: Status, op: Operation)
  {
    exists to: Status :: (from, op, to) in Transitions
  }

  // ---------------------------------------------------------------------------
  // The operations

  /** createOrder: pre-check, then a new active order whose items are reserved
      one after the other. */
  function Create(db: Db, dto: CreateOrderDto, now: Time): (res: (Db, Result<Order, Error>))
    ensures res.1.Err? ==> res.0 == db && res.1.error.InsufficientStock?
    ensures res.1.Err? ==> exists j :: 0 <= j < |dto.items| && res.1.error.productId == dto.items[j].productId
                                       && res.1.error.requested == dto.items[j].count
    ensures res.1.Err? && res.1.error.available.Some? ==> res.1.error.available.value < res.1.error.requested
    ensures res.1.Ok? ==>
              var o := res.1.value;
              && o == Order(db.nextId, dto.customer, dto.warehouseId, Active, now, None, dto.items)
              && res.0.orders == db.orders[o.id := o]
              && res.0.nextId == db.nextId + 1
              && res.0.movements == db.movements + Outgoing(dto.warehouseId, dto.items, OrderCreated)
  {
    var w := dto.warehouseId;
    var pre := PreCheck(db.stock, w, dto.items);
    if pre.Some? then (db, Err(pre.value))
    else match Reserve(db.stock, w, dto.items)
      case Err(e) => (db, Err(e))
      case Ok(s) =>
        var o := Order(db.nextId, dto.customer, w, Active, now, None, dto.items);
        (Db(s, db.movements + Outgoing(w, dto.items, OrderCreated), db.orders[db.nextId := o], db.nextId + 1),
         Ok(o))
  }

  /** The customer part of an update: a given customer replaces the old one. */
  function Rename(db: Db, id: OrderId, customer: Option<string>): (res: Db)
    requires id in db.orders
    ensures res.stock == db.stock && res.movements == db.movements && res.nextId == db.nextId
    ensures res.orders.Keys == db.orders.Keys
  {
    if customer.Some? then db.(orders := db.orders[id := db.orders[id].(customer := customer.value)]) else db
  }

  /** The item part of an update: return every old item to stock, then reserve
      the new list; a shortage leaves the database as it was. */
  function Replace(db: Db, id: OrderId, items: seq<OrderItem>): (res: (Db, Result<Order, Error>))
    requires id in db.orders
    ensures res.1.Err? ==> res.0 == db && res.1.error.InsufficientStock?
    ensures res.1.Err? ==> exists j :: 0 <= j < |items| && res.1.error.productId == items[j].productId
                                       && res.1.error.requested == items[j].count
    ensures res.1.Err? && res.1.error.available.Some? ==> res.1.error.available.value < res.1.error.requested
    ensures res.1.Ok? ==>
              var o := db.orders[id];
              && res.1.value == o.(items := items)
              && res.0.orders == db.orders[id := res.1.value]
              && res.0.stock.Keys == db.stock.Keys
              && res.0.nextId == db.nextId
  {
    var o := db.orders[id];
    var w := o.warehouseId;
    var returned := ReturnAll(db.stock, w, o.items);
    var logged := db.movements + Incoming(w, o.items, OrderUpdated);
    match Reserve(returned, w, items)
    case Err(e) => (db, Err(e))
    case Ok(s) =>
      var o' := o.(items := items);
      (Db(s, logged + Outgoing(w, items, OrderUpdated), db.orders[id := o'], db.nextId), Ok(o'))
  }

  /** updateOrder: no status check; rename, then replace the items when a list
      is given, all in one transaction. */
  function Update(db: Db, id: OrderId, dto: UpdateOrderDto): (res: (Db, Result<Order, Error>))
    requires id in db.orders
    ensures res.1.Err? ==> res.0 == db && dto.items.Some?
    ensures res.1.Ok? ==> res.0.nextId == db.nextId && res.0.orders.Keys == db.orders.Keys
                          && res.0.stock.Keys == db.stock.Keys
  {
    var renamed := Rename(db, id, dto.customer);
    if dto.items.None? then (renamed, Ok(renamed.orders[id]))
    else
      var replaced := Replace(renamed, id, dto.items.value);
      if replaced.1.Err? then (db, replaced.1) else replaced
  }

  /** What an update keeps and what it replaces: the customer changes exactly
      when one is given, the items exactly when a list is given, nothing else
      about the order changes, and a shortage rolls everything back. */
  lemma UpdateFields(db: Db, id: OrderId, dto: UpdateOrderDto)
    requires id in db.orders
    ensures var u := Update(db, id, dto);
            u.1.Err? ==> u.0 == db && dto.items.Some? && u.1.error.InsufficientStock?
    ensures var u := Update(db, id, dto);
            dto.items.None? ==> u.1.Ok? && u.0.stock == db.stock && u.0.movements == db.movements
    ensures var u := Update(db, id, dto);
            u.1.Ok? ==>
              var o, o' := db.orders[id], u.1.value;
              && u.0.orders == db.orders[id := o']
              && u.0.nextId == db.nextId
              && o'.id == o.id && o'.warehouseId == o.warehouseId && o'.status == o.status
              && o'.createdAt == o.createdAt && o'.completedAt == o.completedAt
              && o'.customer == (if dto.customer.Some? then dto.customer.value else o.customer)
              && o'.items == (if dto.items.Some? then dto.items.value else o.items)
    ensures var u := Update(db, id, dto);
            u.1.Ok? && dto.items.Some? ==>
              var o := db.orders[id];
              u.0.movements == db.movements + Incoming(o.warehouseId, o.items, OrderUpdated)
                                            + Outgoing(o.warehouseId, dto.items.value, OrderUpdated)
  {
  }

  /** cancelOrder: from active or completed, return every item and mark the
      order canceled, keeping its items. */
  function Cancel(db: Db, id: OrderId): (res: (Db, Result<(), Error>))
    requires id in db.orders
    ensures var from := db.orders[id].status;
            res.1.Ok? <==> Permitted(from, Canceling)
    ensures res.1.Err? ==> res.0 == db && res.1.error == CannotCancelOrder(id)
    ensures res.1.Ok? ==>
              var o := db.orders[id];
              && res.0.orders == db.orders[id := o.(status := Canceled)]
              && (o.status, Canceling, res.0.orders[id].status) in Transitions
              && res.0.stock == ReturnAll(db.stock, o.warehouseId, o.items)
              && res.0.movements == db.movements + Incoming(o.warehouseId, o.items, OrderCanceled)
              && res.0.nextId == db.nextId
  {
    var o := db.orders[id];
    if o.status != Active && o.status != Completed then (db, Err(CannotCancelOrder(id)))
    else
      var w := o.warehouseId;
      (Db(ReturnAll(db.stock, w, o.items), db.movements + Incoming(w, o.items, OrderCanceled),
          db.orders[id := o.(status := Canceled)], db.nextId),
       Ok(()))
  }

  /** resumeOrder: from canceled only, re-reserve every item and mark the order
      active; a shortage leaves everything as it was. */
  function Resume(db: Db, id: OrderId): (res: (Db, Result<(), Error>))
    requires id in db.orders
    ensures db.orders[id].status != Canceled ==> res == (db, Err(CannotResumeOrder(id)))
    ensures res.1.Ok? ==> Permitted(db.orders[id].status, Resuming)
    ensures res.1.Err? ==> res.0 == db
    ensures res.1.Err? && db.orders[id].status == Canceled ==>
              var its := db.orders[id].items;
              && res.1.error.InsufficientStock?
              && (exists j :: 0 <= j < |its| && res.1.error.productId == its[j].productId
                                              && res.1.error.requested == its[j].count)
              && (res.1.error.available.Some? ==> res.1.error.available.value < res.1.error.requested)
    ensures res.1.Ok? ==>
              var o := db.orders[id];
              && res.0.orders == db.orders[id := o.(status := Active)]
              && (o.status, Resuming, res.0.orders[id].status) in Transitions
              && res.0.movements == db.movements + Outgoing(o.warehouseId, o.items, OrderResumed)
              && res.0.nextId == db.nextId
  {
    var o := db.orders[id];
    if o.status != Canceled then (db, Err(CannotResumeOrder(id)))
    else match Reserve(db.stock, o.warehouseId, o.items)
      case Err(e) => (db, Err(e))
      case Ok(s) =>
        (Db(s, db.movements + Outgoing(o.warehouseId, o.items, OrderResumed),
            db.orders[id := o.(status := Active)], db.nextId),
         Ok(()))
  }

  /** completeOrder: from active only, mark the order completed at now; stock
      and movements are never touched. */
  function Complete(db: Db, id: OrderId, now: Time): (res: (Db, Result<(), Error>))
    requires id in db.orders
    ensures var from := db.orders[id].status;
            res.1.Ok? <==> Permitted(from, Completing)
    ensures res.1.Err? ==> res.0 == db && res.1.error == CannotCompleteOrder(id)
    ensures res.0.stock == db.stock && res.0.movements == db.movements && res.0.nextId == db.nextId
    ensures res.1.Ok? ==>
              var o := db.orders[id];
              && res.0.orders == db.orders[id := o.(status := Completed, completedAt := Some(now))]
              && (o.status, Completing, res.0.orders[id].status) in Transitions
  {
    var o := db.orders[id];
    if o.status != Active then (db, Err(CannotCompleteOrder(id)))
    else (db.(orders := db.orders[id := o.(status := Completed, completedAt := Some(now))]), Ok(()))
  }

  // ---------------------------------------------------------------------------
  // What the operations do to stock

  /** An order is created exactly when every row it draws on exists and holds
      the order's whole demand on it; the rows then drop by that demand. */
  lemma CreateStock(db: Db, dto: CreateOrderDto, now: Time)
    requires PositiveCounts(dto.items)
    ensures Create(db, dto, now).1.Ok? <==> Covered(db.stock, dto.warehouseId, dto.items)
    ensures Create(db, dto, now).1.Ok? ==>
              var s := Create(db, dto, now).0.stock;
              s.Keys == db.stock.Keys &&
              forall k :: k in db.stock ==> s[k] == db.stock[k] - Demand(dto.items, dto.warehouseId, k)
  {
    ReserveSucceedsIff(db.stock, dto.warehouseId, dto.items);
    if Reserve(db.stock, dto.warehouseId, dto.items).Ok? {
      ReservePassesPreCheck(db.stock, dto.warehouseId, dto.items);
      ReserveEffect(db.stock, dto.warehouseId, dto.items);
    }
  }

  /** The unlocked pre-check decides a create's error: when item i is the
      first that does not fit the unchanged table, the create fails with that
      item's error and changes nothing. */
  lemma CreatePreCheckFailsAt(db: Db, dto: CreateOrderDto, now: Time, i: nat)
    requires i < |dto.items|
    requires PreCheck(db.stock, dto.warehouseId, dto.items[..i]).None?
    requires Debit(db.stock, dto.warehouseId, dto.items[i]).Err?
    ensures Create(db, dto, now) == (db, Err(Debit(db.stock, dto.warehouseId, dto.items[i]).error))
  {
    PreCheckFailsAt(db.stock, dto.warehouseId, dto.items, i);
  }

  /** After a passing pre-check, the locked check decides a create's error:
      when the items before i have been reserved, leaving s, and item i does
      not fit s, the create fails with that item's error and changes nothing. */
  lemma CreateLockedCheckFailsAt(db: Db, dto: CreateOrderDto, now: Time, i: nat, s: Stock)
    requires PreCheck(db.stock, dto.warehouseId, dto.items).None?
    requires i < |dto.items|
    requires Reserve(db.stock, dto.warehouseId, dto.items[..i]) == Ok(s)
    requires Debit(s, dto.warehouseId, dto.items[i]).Err?
    ensures Create(db, dto, now) == (db, Err(Debit(s, dto.warehouseId, dto.items[i]).error))
  {
    ReserveFailsAt(db.stock, dto.warehouseId, dto.items, i, s);
  }

  /** The first new item that does not fit, once the old items are returned
      and the new items before it reserved, decides a replacement's error. */
  lemma ReplaceFailsAt(db: Db, id: OrderId, items: seq<OrderItem>, i: nat, s: Stock)
    requires id in db.orders
    requires i < |items|
    requires var o := db.orders[id];
             Reserve(ReturnAll(db.stock, o.warehouseId, o.items), o.warehouseId, items[..i]) == Ok(s)
    requires Debit(s, db.orders[id].warehouseId, items[i]).Err?
    ensures Replace(db, id, items) == (db, Err(Debit(s, db.orders[id].warehouseId, items[i]).error))
  {
    var o := db.orders[id];
    ReserveFailsAt(ReturnAll(db.stock, o.warehouseId, o.items), o.warehouseId, items, i, s);
  }

  /** The first item of a canceled order that does not fit, once the items
      before it are reserved again, decides a resume's error. */
  lemma ResumeFailsAt(db: Db, id: OrderId, i: nat, s: Stock)
    requires id in db.orders && db.orders[id].status == Canceled
    requires i < |db.orders[id].items|
    requires var o := db.orders[id];
             Reserve(db.stock, o.warehouseId, o.items[..i]) == Ok(s)
    requires Debit(s, db.orders[id].warehouseId, db.orders[id].items[i]).Err?
    ensures Resume(db, id) == (db, Err(Debit(s, db.orders[id].warehouseId, db.orders[id].items[i]).error))
  {
    var o := db.orders[id];
    ReserveFailsAt(db.stock, o.warehouseId, o.items, i, s);
  }

  /** An update with items succeeds exactly when the new demand on every row
      fits that row plus what the old items give back; each row then moves by
      the old demand minus the new. */
  lemma UpdateStock(db: Db, id: OrderId, dto: UpdateOrderDto)
    requires id in db.orders
    requires dto.items.Some? && PositiveCounts(dto.items.value)
    ensures var o, items := db.orders[id], dto.items.value;
            Update(db, id, dto).1.Ok? <==>
              forall j :: 0 <= j < |items| ==>
                var k := Key(o.warehouseId, items[j]);
                k in db.stock && Demand(items, o.warehouseId, k) <= db.stock[k] + Demand(o.items, o.warehouseId, k)
    ensures Update(db, id, dto).1.Ok? ==>
              var o, items, s := db.orders[id], dto.items.value, Update(db, id, dto).0.stock;
              s.Keys == db.stock.Keys &&
              forall k :: k in db.stock ==>
                s[k] == db.stock[k] + Demand(o.items, o.warehouseId, k) - Demand(items, o.warehouseId, k)
  {
    var o, items := db.orders[id], dto.items.value;
    var returned := ReturnAll(db.stock, o.warehouseId, o.items);
    ReturnEffect(db.stock, o.warehouseId, o.items);
    ReserveSucceedsIff(returned, o.warehouseId, items);
    if Reserve(returned, o.warehouseId, items).Ok? {
      ReserveEffect(returned, o.warehouseId, items);
    }
  }

  /** A canceled order resumes exactly when every row it draws on holds its
      whole demand again; the rows then drop by that demand, and a shortage is
      reported as insufficient stock. */
  lemma ResumeStock(db: Db, id: OrderId)
    requires id in db.orders && db.orders[id].status == Canceled
    requires PositiveCounts(db.orders[id].items)
    ensures var o := db.orders[id];
            Resume(db, id).1.Ok? <==> Covered(db.stock, o.warehouseId, o.items)
    ensures Resume(db, id).1.Err? ==> Resume(db, id).1.error.InsufficientStock?
    ensures Resume(db, id).1.Ok? ==>
              var o, s := db.orders[id], Resume(db, id).0.stock;
              s.Keys == db.stock.Keys &&
              forall k :: k in db.stock ==> s[k] == db.stock[k] - Demand(o.items, o.warehouseId, k)
  {
    var o := db.orders[id];
    ReserveSucceedsIff(db.stock, o.warehouseId, o.items);
    if Reserve(db.stock, o.warehouseId, o.items).Ok? {
      ReserveEffect(db.stock, o.warehouseId, o.items);
    }
  }

  /** An update with an empty item list, whatever the order's status, gives
      every item back to stock and leaves the order with no items; for a
      canceled order those items are given back a second time. */
  lemma UpdateEmptyReturnsAll(db: Db, id: OrderId, customer: Option<string>)
    requires id in db.orders
    ensures var o, res := db.orders[id], Update(db, id, UpdateOrderDto(customer, Some([])));
            && res.1.Ok?
            && res.0.orders[id].status == o.status
            && res.0.orders[id].items == []
            && res.0.stock.Keys == db.stock.Keys
            && forall k :: k in db.stock ==> res.0.stock[k] == db.stock[k] + Demand(o.items, o.warehouseId, k)
  {
    var o := db.orders[id];
    ReturnEffect(db.stock, o.warehouseId, o.items);
  }

  /** Canceling and then resuming, with nothing in between, restores the stock
      table and leaves the order active with its items. An active order comes
      back exactly as it was; a completed one comes back active, still
      carrying its completion time. */
  lemma CancelResumeRoundTrip(db: Db, id: OrderId)
    requires Consistent(db) && Stocked(db)
    requires id in db.orders && db.orders[id].status != Canceled
    ensures var c := Cancel(db, id);
            c.1.Ok? && id in c.0.orders &&
            var r := Resume(c.0, id);
            && r.1.Ok?
            && r.0.stock == db.stock
            && r.0.orders == db.orders[id := db.orders[id].(status := Active)]
            && (db.orders[id].status == Active ==> r.0.orders == db.orders)
    ensures var c := Cancel(db, id);
            var o := db.orders[id];
            Resume(c.0, id).0.movements ==
              db.movements + Incoming(o.warehouseId, o.items, OrderCanceled)
                           + Outgoing(o.warehouseId, o.items, OrderResumed)
  {
    var o := db.orders[id];
    ReserveAfterReturn(db.stock, o.warehouseId, o.items);
    var r := Resume(Cancel(db, id).0, id);
    assert r.0.orders == db.orders[id := o.(status := Canceled)][id := o.(status := Active)];
    assert o.status == Active ==> o.(status := Active) == o;
  }

  // ---------------------------------------------------------------------------
  // The invariants every operation keeps

  lemma CreatePreserves(initial: Stock, db: Db, dto: CreateOrderDto, now: Time)
    requires Consistent(db)
    requires PositiveCounts(dto.items)
    ensures Consistent(Create(db, dto, now).0)
    ensures Stocked(db) ==> Stocked(Create(db, dto, now).0)
    ensures Reconciled(initial, db) ==> Reconciled(initial, Create(db, dto, now).0)
  {
    var res := Create(db, dto, now);
    if res.1.Ok? {
      var w, items := dto.warehouseId, dto.items;
      var db' := res.0;
      ReserveKeepsNonNegative(db.stock, w, items);
      CreateStock(db, dto, now);
      forall k | k in initial && Reconciled(initial, db)
        ensures db'.stock[k] == initial[k] + Net(db'.movements, k)
      {
        NetAppend(db.movements, Outgoing(w, items, OrderCreated), k);
        NetOutgoing(w, items, OrderCreated, k);
      }
    }
  }

  lemma UpdatePreserves(initial: Stock, db: Db, id: OrderId, dto: UpdateOrderDto)
    requires Consistent(db)
    requires id in db.orders
    requires dto.items.Some? ==> PositiveCounts(dto.items.value)
    ensures Consistent(Update(db, id, dto).0)
    ensures Stocked(db) ==> Stocked(Update(db, id, dto).0)
    ensures Reconciled(initial, db) ==> Reconciled(initial, Update(db, id, dto).0)
  {
    var res := Update(db, id, dto);
    if res.1.Ok? && dto.items.Some? {
      var o, items := db.orders[id], dto.items.value;
      var w := o.warehouseId;
      var db' := res.0;
      var returned := ReturnAll(db.stock, w, o.items);
      ReturnKeepsNonNegative(db.stock, w, o.items);
      ReserveKeepsNonNegative(returned, w, items);
      UpdateStock(db, id, dto);
      forall k | k in initial && Reconciled(initial, db)
        ensures db'.stock[k] == initial[k] + Net(db'.movements, k)
      {
        NetAppend(db.movements, Incoming(w, o.items, OrderUpdated), k);
        NetAppend(db.movements + Incoming(w, o.items, OrderUpdated), Outgoing(w, items, OrderUpdated), k);
        NetIncoming(w, o.items, OrderUpdated, k);
        NetOutgoing(w, items, OrderUpdated, k);
      }
    }
  }

  lemma CancelPreserves(initial: Stock, db: Db, id: OrderId)
    requires Consistent(db)
    requires id in db.orders
    ensures Consistent(Cancel(db, id).0)
    ensures Stocked(db) ==> Stocked(Cancel(db, id).0)
    ensures Reconciled(initial, db) ==> Reconciled(initial, Cancel(db, id).0)
  {
    var res := Cancel(db, id);
    if res.1.Ok? {
      var o := db.orders[id];
      var db' := res.0;
      ReturnKeepsNonNegative(db.stock, o.warehouseId, o.items);
      ReturnEffect(db.stock, o.warehouseId, o.items);
      forall k | k in initial && Reconciled(initial, db)
        ensures db'.stock[k] == initial[k] + Net(db'.movements, k)
      {
        NetAppend(db.movements, Incoming(o.warehouseId, o.items, OrderCanceled), k);
        NetIncoming(o.warehouseId, o.items, OrderCanceled, k);
      }
    }
  }

  lemma ResumePreserves(initial: Stock, db: Db, id: OrderId)
    requires Consistent(db)
    requires id in db.orders
    ensures Consistent(Resume(db, id).0)
    ensures Stocked(db) ==> Stocked(Resume(db, id).0)
    ensures Reconciled(initial, db) ==> Reconciled(initial, Resume(db, id).0)
  {
    var res := Resume(db, id);
    if res.1.Ok? {
      var o := db.orders[id];
      var db' := res.0;
      ReserveKeepsNonNegative(db.stock, o.warehouseId, o.items);
      ReserveEffect(db.stock, o.warehouseId, o.items);
      forall k | k in initial && Reconciled(initial, db)
        ensures db'.stock[k] == initial[k] + Net(db'.movements, k)
      {
        NetAppend(db.movements, Outgoing(o.warehouseId, o.items, OrderResumed), k);
        NetOutgoing(o.warehouseId, o.items, OrderResumed, k);
      }
    }
  }

  lemma CompletePreserves(initial: Stock, db: Db, id: OrderId, now: Time)
    requires Consistent(db)
    requires id in db.orders
    ensures Consistent(Complete(db, id, now).0)
    ensures Stocked(db) ==> Stocked(Complete(db, id, now).0)
    ensures Reconciled(initial, db) ==> Reconciled(initial, Complete(db, id, now).0)
  {
  }
}
