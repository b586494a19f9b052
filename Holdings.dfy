/** What the orders hold: every order that is not canceled holds its whole
    demand on the stock rows of its warehouse. The stock table is balanced when
    each row is its seeded quantity less what the orders hold on it. Every
    operation keeps the balance, with one exception: updating the items of a
    canceled order, which returns items that canceling already returned. */
module Holdings {
  import opened Types
  import opened Ledger
  import opened Lifecycle

  /** What order id holds on row k: its demand unless it is canceled. */
  function Term(orders: map<OrderId, Order>, id: OrderId, k: StockKey): int
  {
    if id in orders && orders[id].status != Canceled
    then Demand(orders[id].items, orders[id].warehouseId, k)
    else 0
  }

  /** What the orders with ids below n hold on row k. */
  function Held(orders: map<OrderId, Order>, n: nat, k: StockKey): int
    decreases n
  {
    if n == 0 then 0 else Held(orders, n - 1, k) + Term(orders, n - 1, k)
  }

  /** Each seeded row is its seed less what the orders hold on it. */
  predicate Balanced(initial: Stock, db: Db)
  {
    && db.stock.Keys == initial.Keys
    && forall k :: k in initial ==> db.stock[k] == initial[k] - Held(db.orders, db.nextId, k)
  }

  lemma {:induction false} HeldFrame(orders: map<OrderId, Order>, orders': map<OrderId, Order>, n: nat, k: StockKey)
    requires forall id: OrderId :: id < n ==> Term(orders, id, k) == Term(orders', id, k)
    ensures Held(orders, n, k) == Held(orders', n, k)
    decreases n
  {
    if n > 0 {
      HeldFrame(orders, orders', n - 1, k);
    }
  }

  /** Replacing one order below n changes the total by the change of its term. */
  lemma {:induction false} HeldSet(orders: map<OrderId, Order>, n: nat, id: OrderId, o: Order, k: StockKey)
    requires id < n
    ensures Held(orders[id := o], n, k) == Held(orders, n, k) - Term(orders, id, k) + Term(orders[id := o], id, k)
    decreases n
  {
    if id < n - 1 {
      HeldSet(orders, n - 1, id, o, k);
    } else {
      HeldFrame(orders[id := o], orders, n - 1, k);
    }
  }

  /** Adding an order at n and counting it adds its term to the total. */
  lemma HeldExtend(orders: map<OrderId, Order>, n: nat, o: Order, k: StockKey)
    ensures Held(orders[n := o], n + 1, k) == Held(orders, n, k) + Term(orders[n := o], n, k)
  {
    HeldFrame(orders[n := o], orders, n, k);
  }

  lemma CreateBalanced(initial: Stock, db: Db, dto: CreateOrderDto, now: Time)
    requires Balanced(initial, db)
    requires PositiveCounts(dto.items)
    ensures Balanced(initial, Create(db, dto, now).0)
  {
    var res := Create(db, dto, now);
    if res.1.Ok? {
      CreateStock(db, dto, now);
      forall k | k in initial
        ensures res.0.stock[k] == initial[k] - Held(res.0.orders, res.0.nextId, k)
      {
        HeldExtend(db.orders, db.nextId, res.1.value, k);
      }
    }
  }

  /** Both directions of cancel keep the balance: from active and from
      completed alike, the order stops holding what it gives back. */
  lemma CancelBalanced(initial: Stock, db: Db, id: OrderId)
    requires Consistent(db) && Balanced(initial, db)
    requires id in db.orders
    ensures Balanced(initial, Cancel(db, id).0)
  {
    var res := Cancel(db, id);
    if res.1.Ok? {
      var o := db.orders[id];
      ReturnEffect(db.stock, o.warehouseId, o.items);
      forall k | k in initial
        ensures res.0.stock[k] == initial[k] - Held(res.0.orders, res.0.nextId, k)
      {
        HeldSet(db.orders, db.nextId, id, o.(status := Canceled), k);
      }
    }
  }

  lemma ResumeBalanced(initial: Stock, db: Db, id: OrderId)
    requires Consistent(db) && Balanced(initial, db)
    requires id in db.orders
    ensures Balanced(initial, Resume(db, id).0)
  {
    var res := Resume(db, id);
    if res.1.Ok? {
      var o := db.orders[id];
      ReserveEffect(db.stock, o.warehouseId, o.items);
      forall k | k in initial
        ensures res.0.stock[k] == initial[k] - Held(res.0.orders, res.0.nextId, k)
      {
        HeldSet(db.orders, db.nextId, id, o.(status := Active), k);
      }
    }
  }

  lemma CompleteBalanced(initial: Stock, db: Db, id: OrderId, now: Time)
    requires Consistent(db) && Balanced(initial, db)
    requires id in db.orders
    ensures Balanced(initial, Complete(db, id, now).0)
  {
    var res := Complete(db, id, now);
    if res.1.Ok? {
      var o := db.orders[id];
      forall k | k in initial
        ensures res.0.stock[k] == initial[k] - Held(res.0.orders, res.0.nextId, k)
      {
        HeldSet(db.orders, db.nextId, id, o.(status := Completed, completedAt := Some(now)), k);
      }
    }
  }

  /** An update keeps the balance unless it replaces the items of a canceled
      order. */
  lemma UpdateBalanced(initial: Stock, db: Db, id: OrderId, dto: UpdateOrderDto)
    requires Consistent(db) && Balanced(initial, db)
    requires id in db.orders
    requires dto.items.Some? ==> PositiveCounts(dto.items.value) && db.orders[id].status != Canceled
    ensures Balanced(initial, Update(db, id, dto).0)
  {
    var res := Update(db, id, dto);
    UpdateFields(db, id, dto);
    if res.1.Ok? {
      var o := db.orders[id];
      if dto.items.Some? {
        UpdateStock(db, id, dto);
      }
      forall k | k in initial
        ensures res.0.stock[k] == initial[k] - Held(res.0.orders, res.0.nextId, k)
      {
        HeldSet(db.orders, db.nextId, id, res.1.value, k);
      }
    }
  }

  /** The exception: clearing the items of a canceled order that held nothing
      but still lists items raises their rows, so the table is no longer
      balanced. */
  lemma UpdateCanceledUnbalances(initial: Stock, db: Db, id: OrderId, k: StockKey)
    requires Consistent(db) && Balanced(initial, db)
    requires id in db.orders && db.orders[id].status == Canceled
    requires k in initial && Demand(db.orders[id].items, db.orders[id].warehouseId, k) > 0
    ensures !Balanced(initial, Update(db, id, UpdateOrderDto(None, Some([]))).0)
  {
    var o := db.orders[id];
    var res := Update(db, id, UpdateOrderDto(None, Some([])));
    UpdateEmptyReturnsAll(db, id, None);
    HeldSet(db.orders, db.nextId, id, res.0.orders[id], k);
  }
}
