/** A run of the service: a sequence of requests, each served in its own
    transaction, from a fresh database seeded with a stock table. The standing
    invariants hold after every run, and a short scenario shows the lifecycle
    of one order and a shortage between two. */
module History {
  import opened Types
  import opened Ledger
  import opened Lifecycle
  import opened Holdings

  /** One request of the HTTP layer, with the arguments it hands to the service. */
  datatype Request =
    | CreateRequest(create: CreateOrderDto, now: Time)
    | UpdateRequest(id: OrderId, update: UpdateOrderDto)
    | CancelRequest(id: OrderId)
    | ResumeRequest(id: OrderId)
    | CompleteRequest(id: OrderId, now: Time)

  /** A database with the seeded stock and nothing else; ids start at one.
      It already meets every invariant the runs keep. */
  function Fresh(initial: Stock): (db: Db)
    requires NonNegative(initial)
    ensures db.stock == initial && db.movements == [] && db.orders == map[] && db.nextId == 1
    ensures Consistent(db) && Stocked(db) && Reconciled(initial, db) && Balanced(initial, db)
  {
    Db(initial, [], map[], 1)
  }

  /** Whether the request reaches the service: its order exists and its item
      list passes the request rules (at least one item, every count positive). */
  predicate Admitted(db: Db, req: Request)
  {
    match req
    case CreateRequest(dto, _) => |dto.items| >= 1 && PositiveCounts(dto.items)
    case UpdateRequest(id, dto) => id in db.orders && (dto.items.Some? ==> PositiveCounts(dto.items.value))
    case CancelRequest(id) => id in db.orders
    case ResumeRequest(id) => id in db.orders
    case CompleteRequest(id, _) => id in db.orders
  }

  /** Serve one request; one that is not admitted leaves the database alone.
      Whatever the request, no stock row appears or disappears, no order is
      deleted, the next id grows by at most one, and the movement log only
      grows at its end. */
  function Step(db: Db, req: Request): (res: Db)
    ensures !Admitted(db, req) ==> res == db
    ensures res.stock.Keys == db.stock.Keys
    ensures db.orders.Keys <= res.orders.Keys
    ensures res.nextId == db.nextId || res.nextId == db.nextId + 1
    ensures db.movements <= res.movements
  {
    if !Admitted(db, req) then db
    else match req
      case CreateRequest(dto, now) => Create(db, dto, now).0
      case UpdateRequest(id, dto) => UpdateFields(db, id, dto); Update(db, id, dto).0
      case CancelRequest(id) => Cancel(db, id).0
      case ResumeRequest(id) => Resume(db, id).0
      case CompleteRequest(id, now) => Complete(db, id, now).0
  }

  /** Serve the requests in order. */
  function Run(db: Db, reqs: seq<Request>): Db
    decreases |reqs|
  {
    if |reqs| == 0 then db else Step(Run(db, reqs[..|reqs| - 1]), reqs[|reqs| - 1])
  }

  /** The request replaces the items of a canceled order. */
  predicate ReturnsTwice(db: Db, req: Request)
  {
    req.UpdateRequest? && req.id in db.orders && db.orders[req.id].status == Canceled && req.update.items.Some?
  }

  lemma StepPreserves(initial: Stock, db: Db, req: Request)
    requires Consistent(db)
    ensures Consistent(Step(db, req))
    ensures Stocked(db) ==> Stocked(Step(db, req))
    ensures Reconciled(initial, db) ==> Reconciled(initial, Step(db, req))
  {
    if Admitted(db, req) {
      match req
      case CreateRequest(dto, now) => CreatePreserves(initial, db, dto, now);
      case UpdateRequest(id, dto) => UpdatePreserves(initial, db, id, dto);
      case CancelRequest(id) => CancelPreserves(initial, db, id);
      case ResumeRequest(id) => ResumePreserves(initial, db, id);
      case CompleteRequest(id, now) => CompletePreserves(initial, db, id, now);
    }
  }

  lemma StepBalanced(initial: Stock, db: Db, req: Request)
    requires Consistent(db) && Balanced(initial, db)
    requires !ReturnsTwice(db, req)
    ensures Balanced(initial, Step(db, req))
  {
    if Admitted(db, req) {
      match req
      case CreateRequest(dto, now) => CreateBalanced(initial, db, dto, now);
      case UpdateRequest(id, dto) => UpdateBalanced(initial, db, id, dto);
      case CancelRequest(id) => CancelBalanced(initial, db, id);
      case ResumeRequest(id) => ResumeBalanced(initial, db, id);
      case CompleteRequest(id, now) => CompleteBalanced(initial, db, id, now);
    }
  }

  /** After any run from a nonnegative seed: no row is negative, every order is
      stored under its own id, every line item has a stock row, and each row is
      its seed plus the signed sum of the movements logged for it. */
  lemma {:induction false} RunPreserves(initial: Stock, reqs: seq<Request>)
    requires NonNegative(initial)
    ensures var db := Run(Fresh(initial), reqs);
            Consistent(db) && Stocked(db) && Reconciled(initial, db)
    ensures forall k :: k in Run(Fresh(initial), reqs).stock ==> Run(Fresh(initial), reqs).stock[k] >= 0
    decreases |reqs|
  {
    if |reqs| > 0 {
      RunPreserves(initial, reqs[..|reqs| - 1]);
      StepPreserves(initial, Run(Fresh(initial), reqs[..|reqs| - 1]), reqs[|reqs| - 1]);
    }
  }

  /** After a run in which no request replaces the items of a canceled order,
      each row is its seed less what the orders that are not canceled hold. */
  lemma {:induction false} RunBalanced(initial: Stock, reqs: seq<Request>)
    requires NonNegative(initial)
    requires forall i :: 0 <= i < |reqs| ==> !ReturnsTwice(Run(Fresh(initial), reqs[..i]), reqs[i])
    ensures Balanced(initial, Run(Fresh(initial), reqs))
    decreases |reqs|
  {
    if |reqs| > 0 {
      var pre := reqs[..|reqs| - 1];
      forall i | 0 <= i < |pre|
        ensures !ReturnsTwice(Run(Fresh(initial), pre[..i]), pre[i])
      {
        assert pre[..i] == reqs[..i];
        assert pre[i] == reqs[i];
      }
      RunBalanced(initial, pre);
      RunPreserves(initial, pre);
      assert reqs[..|reqs| - 1] == pre;
      StepBalanced(initial, Run(Fresh(initial), pre), reqs[|reqs| - 1]);
    }
  }

  // ---------------------------------------------------------------------------
  // A scenario

  const P: ProductId := 7
  const W: WarehouseId := 1
  const Row: StockKey := StockKey(P, W)

  /** Twenty on hand; create an order for five, cancel it, resume it, complete it. */
  lemma OneOrderLifecycle()
    ensures var d0 := Fresh(map[Row := 20]);
            var c := Create(d0, CreateOrderDto("Ann", W, [OrderItem(P, 5)]), 100);
            && c.1 == Ok(Order(1, "Ann", W, Active, 100, None, [OrderItem(P, 5)]))
            && c.0.stock == map[Row := 15]
            && var x := Cancel(c.0, 1);
            && x.1.Ok? && x.0.stock == map[Row := 20] && x.0.orders[1].status == Canceled
            && var r := Resume(x.0, 1);
            && r.1.Ok? && r.0.stock == map[Row := 15] && r.0.orders[1].status == Active
            && var f := Complete(r.0, 1, 200);
            && f.1.Ok? && f.0.stock == map[Row := 15]
            && f.0.orders[1].status == Completed && f.0.orders[1].completedAt == Some(200)
            && f.0.movements == [StockMovement(P, W, -5, OrderCreated), StockMovement(P, W, 5, OrderCanceled),
                                 StockMovement(P, W, -5, OrderResumed)]
            && Complete(f.0, 1, 300).1 == Err(CannotCompleteOrder(1))
            && Resume(f.0, 1).1 == Err(CannotResumeOrder(1))
  {
    var d0 := Fresh(map[Row := 20]);
    var items := [OrderItem(P, 5)];
    assert items[..0] == [];
    assert Reserve(d0.stock, W, items) == Debit(d0.stock, W, items[0]);
    assert map[Row := 20][Row := 15] == map[Row := 15];
    var c := Create(d0, CreateOrderDto("Ann", W, items), 100);
    assert ReturnAll(c.0.stock, W, items) == Credit(c.0.stock, W, items[0]);
    assert map[Row := 15][Row := 20] == map[Row := 20];
    var x := Cancel(c.0, 1);
    assert Reserve(x.0.stock, W, items) == Debit(x.0.stock, W, items[0]);
    assert Outgoing(W, items, OrderCreated) == [StockMovement(P, W, -5, OrderCreated)];
    assert Incoming(W, items, OrderCanceled) == [StockMovement(P, W, 5, OrderCanceled)];
    assert Outgoing(W, items, OrderResumed) == [StockMovement(P, W, -5, OrderResumed)];
  }

  /** Ten on hand; two orders for six each: the first is served, the second is
      refused naming the product, the six it asked for and the four left. */
  lemma Shortage()
    ensures var d0 := Fresh(map[Row := 10]);
            var first := Create(d0, CreateOrderDto("Ann", W, [OrderItem(P, 6)]), 100);
            var second := Create(first.0, CreateOrderDto("Bob", W, [OrderItem(P, 6)]), 101);
            && first.1.Ok?
            && second.1 == Err(InsufficientStock(P, 6, Some(4)))
            && second.0 == first.0
            && first.0.stock == map[Row := 4]
  {
    var items := [OrderItem(P, 6)];
    assert items[..0] == [];
    var d0 := Fresh(map[Row := 10]);
    assert Reserve(d0.stock, W, items) == Debit(d0.stock, W, items[0]);
    assert map[Row := 10][Row := 4] == map[Row := 4];
  }

  /** Ten on hand; one order asking twice for six of the same product passes
      the unlocked pre-check, since each item fits the table on its own, but
      the locked check of the second item sees the four the first one left:
      the order is refused with six requested and four available, and the
      transaction leaves everything as it was. */
  lemma LockedShortage()
    ensures var d0 := Fresh(map[Row := 10]);
            var items := [OrderItem(P, 6), OrderItem(P, 6)];
            && PreCheck(d0.stock, W, items).None?
            && Create(d0, CreateOrderDto("Ann", W, items), 100) == (d0, Err(InsufficientStock(P, 6, Some(4))))
  {
    var d0 := Fresh(map[Row := 10]);
    var items := [OrderItem(P, 6), OrderItem(P, 6)];
    assert items[..1] == [OrderItem(P, 6)];
    assert items[..1][..0] == [];
    assert PreCheck(d0.stock, W, items[..1]).None?;
    assert Reserve(d0.stock, W, items[..1]) == Ok(map[Row := 4]) by {
      assert map[Row := 10][Row := 4] == map[Row := 4];
    }
    CreateLockedCheckFailsAt(d0, CreateOrderDto("Ann", W, items), 100, 1, map[Row := 4]);
  }
}
