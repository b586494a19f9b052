/** The stock ledger and the movement recorder as values: what a sequence of
    checked decrements or unchecked increments does to the stock table, which
    movements it records, and how the two reconcile. */
module Ledger {
  import opened Types

  /** The stock row an item of an order in warehouse w draws on. */
  function Key(w: WarehouseId, it: OrderItem): StockKey
  {
    StockKey(it.productId, w)
  }

  function MovementKey(m: StockMovement): StockKey
  {
    StockKey(m.productId, m.warehouseId)
  }

  /** The quantity an insufficient-stock error reports: none when the row is absent. */
  function Available(stock: Stock, k: StockKey): Option<int>
  {
    if k in stock then Some(stock[k]) else None
  }

  predicate NonNegative(stock: Stock)
  {
    forall k :: k in stock ==> stock[k] >= 0
  }

  /** One checked decrement: the row must exist and hold at least the count. */
  function Debit(stock: Stock, w: WarehouseId, it: OrderItem): (r: Result<Stock, Error>)
    ensures r.Ok? <==> Key(w, it) in stock && stock[Key(w, it)] >= it.count
    ensures r.Err? ==> r.error == InsufficientStock(it.productId, it.count, Available(stock, Key(w, it)))
    ensures r.Ok? ==> r.value.Keys == stock.Keys && r.value[Key(w, it)] >= 0
  {
    var k := Key(w, it);
    if k !in stock || stock[k] < it.count then
      Err(InsufficientStock(it.productId, it.count, Available(stock, k)))
    else
      Ok(stock[k := stock[k] - it.count])
  }

  /** Reserving a list of items, one checked decrement after the other; the
      first item that fails stops the reservation with its error. */
  function Reserve(stock: Stock, w: WarehouseId, items: seq<OrderItem>): (r: Result<Stock, Error>)
    ensures r.Err? ==> r.error.InsufficientStock?
    ensures r.Err? ==> exists j :: 0 <= j < |items| && r.error.productId == items[j].productId
                                       && r.error.requested == items[j].count
    ensures r.Err? && r.error.available.Some? ==> r.error.available.value < r.error.requested
    ensures r.Ok? ==> r.value.Keys == stock.Keys
    decreases |items|
  {
    if |items| == 0 then Ok(stock)
    else
      var prev := Reserve(stock, w, items[..|items| - 1]);
      if prev.Err? then
        assert forall j :: 0 <= j < |items| - 1 ==> items[..|items| - 1][j] == items[j];
        prev
      else Debit(prev.value, w, items[|items| - 1])
  }

  /** One unchecked increment: a missing row is left missing. */
  function Credit(stock: Stock, w: WarehouseId, it: OrderItem): (r: Stock)
    ensures r.Keys == stock.Keys
  {
    var k := Key(w, it);
    if k in stock then stock[k := stock[k] + it.count] else stock
  }

  /** Returning a list of items to stock, one increment after the other. */
  function ReturnAll(stock: Stock, w: WarehouseId, items: seq<OrderItem>): (r: Stock)
    ensures r.Keys == stock.Keys
    decreases |items|
  {
    if |items| == 0 then stock
    else Credit(ReturnAll(stock, w, items[..|items| - 1]), w, items[|items| - 1])
  }

  /** The unlocked availability check run before an order is created: every
      item against the unchanged table, reporting the first item that fails. */
  function PreCheck(stock: Stock, w: WarehouseId, items: seq<OrderItem>): (r: Option<Error>)
    ensures r.Some? ==> r.value.InsufficientStock?
    ensures r.Some? ==> exists j :: 0 <= j < |items| && r.value.productId == items[j].productId
                                       && r.value.requested == items[j].count
                                       && r.value.available == Available(stock, Key(w, items[j]))
    ensures r.Some? && r.value.available.Some? ==> r.value.available.value < r.value.requested
    decreases |items|
  {
    if |items| == 0 then None
    else
      var prev := PreCheck(stock, w, items[..|items| - 1]);
      if prev.Some? then
        assert forall j :: 0 <= j < |items| - 1 ==> items[..|items| - 1][j] == items[j];
        prev
      else match Debit(stock, w, items[|items| - 1])
        case Err(e) => Some(e)
        case Ok(_) => None
  }

  /** The movements recorded when items are reserved: one negative entry per item, in order. */
  function Outgoing(w: WarehouseId, items: seq<OrderItem>, kind: MovementType): (ms: seq<StockMovement>)
    ensures |ms| == |items|
    ensures forall i :: 0 <= i < |items| ==>
              ms[i] == StockMovement(items[i].productId, w, -items[i].count, kind)
    decreases |items|
  {
    if |items| == 0 then []
    else
      var last := items[|items| - 1];
      Outgoing(w, items[..|items| - 1], kind) + [StockMovement(last.productId, w, -last.count, kind)]
  }

  /** The movements recorded when items are returned: one positive entry per item, in order. */
  function Incoming(w: WarehouseId, items: seq<OrderItem>, kind: MovementType): (ms: seq<StockMovement>)
    ensures |ms| == |items|
    ensures forall i :: 0 <= i < |items| ==>
              ms[i] == StockMovement(items[i].productId, w, items[i].count, kind)
    decreases |items|
  {
    if |items| == 0 then []
    else
      var last := items[|items| - 1];
      Incoming(w, items[..|items| - 1], kind) + [StockMovement(last.productId, w, last.count, kind)]
  }

  /** How much of row k the items of an order in warehouse w ask for in total. */
  function Demand(items: seq<OrderItem>, w: WarehouseId, k: StockKey): int
    decreases |items|
  {
    if |items| == 0 then 0
    else
      var last := items[|items| - 1];
      Demand(items[..|items| - 1], w, k) + (if Key(w, last) == k then last.count else 0)
  }

  /** The sum of the signed changes the movement log records for row k. */
  function Net(ms: seq<StockMovement>, k: StockKey): int
    decreases |ms|
  {
    if |ms| == 0 then 0
    else
      var last := ms[|ms| - 1];
      Net(ms[..|ms| - 1], k) + (if MovementKey(last) == k then last.quantityChange else 0)
  }

  /** Every item can be served: its row exists and holds the whole demand for it. */
  ghost predicate Covered(stock: Stock, w: WarehouseId, items: seq<OrderItem>)
  {
    forall j :: 0 <= j < |items| ==>
      Key(w, items[j]) in stock && Demand(items, w, Key(w, items[j])) <= stock[Key(w, items[j])]
  }

  // ---------------------------------------------------------------------------
  // Lemmas

  lemma {:induction false} DemandNonNegative(items: seq<OrderItem>, w: WarehouseId, k: StockKey)
    requires PositiveCounts(items)
    ensures Demand(items, w, k) >= 0
    decreases |items|
  {
    if |items| > 0 {
      DemandNonNegative(items[..|items| - 1], w, k);
    }
  }

  /** The total demand on an item's row is at least that item's own count. */
  lemma {:induction false} DemandCoversItem(items: seq<OrderItem>, w: WarehouseId, j: nat)
    requires PositiveCounts(items)
    requires j < |items|
    ensures Demand(items, w, Key(w, items[j])) >= items[j].count
    decreases |items|
  {
    var pre := items[..|items| - 1];
    if j == |items| - 1 {
      DemandNonNegative(pre, w, Key(w, items[j]));
    } else {
      assert pre[j] == items[j];
      DemandCoversItem(pre, w, j);
    }
  }

  /** A successful reservation lowers every row by exactly the demand on it. */
  lemma {:induction false} ReserveEffect(stock: Stock, w: WarehouseId, items: seq<OrderItem>)
    requires Reserve(stock, w, items).Ok?
    ensures forall k :: k in stock ==>
              Reserve(stock, w, items).value[k] == stock[k] - Demand(items, w, k)
    decreases |items|
  {
    if |items| > 0 {
      ReserveEffect(stock, w, items[..|items| - 1]);
    }
  }

  /** A successful reservation never drives a row below zero. */
  lemma {:induction false} ReserveKeepsNonNegative(stock: Stock, w: WarehouseId, items: seq<OrderItem>)
    requires NonNegative(stock)
    requires Reserve(stock, w, items).Ok?
    ensures NonNegative(Reserve(stock, w, items).value)
    decreases |items|
  {
    if |items| > 0 {
      ReserveKeepsNonNegative(stock, w, items[..|items| - 1]);
    }
  }

  /** A reservation succeeds exactly when every item's row exists and holds the
      total demand for that row. */
  lemma {:induction false} ReserveSucceedsIff(stock: Stock, w: WarehouseId, items: seq<OrderItem>)
    requires PositiveCounts(items)
    ensures Reserve(stock, w, items).Ok? <==> Covered(stock, w, items)
    decreases |items|
  {
    if |items| > 0 {
      var n := |items|;
      var pre := items[..n - 1];
      var last := items[n - 1];
      var kl := Key(w, last);
      assert forall j :: 0 <= j < n - 1 ==> pre[j] == items[j];
      assert PositiveCounts(pre);
      ReserveSucceedsIff(stock, w, pre);
      forall k
        ensures Demand(items, w, k) == Demand(pre, w, k) + (if kl == k then last.count else 0)
      {}
      if Reserve(stock, w, items).Ok? {
        ReserveEffect(stock, w, pre);
        forall j | 0 <= j < n
          ensures Key(w, items[j]) in stock && Demand(items, w, Key(w, items[j])) <= stock[Key(w, items[j])]
        {
          if j < n - 1 && Key(w, items[j]) != kl {
            assert Key(w, pre[j]) == Key(w, items[j]);
          }
        }
      } else if Reserve(stock, w, pre).Ok? {
        ReserveEffect(stock, w, pre);
        assert !(Key(w, items[n - 1]) in stock && Demand(items, w, Key(w, items[n - 1])) <= stock[Key(w, items[n - 1])]);
      } else {
        var j :| 0 <= j < n - 1 &&
          !(Key(w, pre[j]) in stock && Demand(pre, w, Key(w, pre[j])) <= stock[Key(w, pre[j])]);
        assert pre[j] == items[j];
        DemandNonNegative([last], w, Key(w, items[j]));
        assert !(Key(w, items[j]) in stock && Demand(items, w, Key(w, items[j])) <= stock[Key(w, items[j])]);
      }
    }
  }

  /** The reservation stops at the first item whose checked decrement fails,
      and reports that item's error. */
  lemma {:induction false} ReserveFailsAt(stock: Stock, w: WarehouseId, items: seq<OrderItem>, i: nat, s: Stock)
    requires i < |items|
    requires Reserve(stock, w, items[..i]) == Ok(s)
    requires Debit(s, w, items[i]).Err?
    ensures Reserve(stock, w, items) == Err(Debit(s, w, items[i]).error)
    decreases |items|
  {
    var pre := items[..|items| - 1];
    if i == |items| - 1 {
      assert items[..i] == pre;
    } else {
      assert pre[..i] == items[..i];
      assert pre[i] == items[i];
      ReserveFailsAt(stock, w, pre, i, s);
    }
  }

  /** The pre-check passes exactly when every item, on its own, fits its row. */
  lemma {:induction false} PreCheckPassesIff(stock: Stock, w: WarehouseId, items: seq<OrderItem>)
    ensures PreCheck(stock, w, items).None? <==>
            forall j :: 0 <= j < |items| ==> Key(w, items[j]) in stock && stock[Key(w, items[j])] >= items[j].count
    decreases |items|
  {
    if |items| > 0 {
      var pre := items[..|items| - 1];
      assert forall j :: 0 <= j < |items| - 1 ==> pre[j] == items[j];
      PreCheckPassesIff(stock, w, pre);
    }
  }

  /** The pre-check reports the first item that does not fit on its own. */
  lemma {:induction false} PreCheckFailsAt(stock: Stock, w: WarehouseId, items: seq<OrderItem>, i: nat)
    requires i < |items|
    requires PreCheck(stock, w, items[..i]).None?
    requires Debit(stock, w, items[i]).Err?
    ensures PreCheck(stock, w, items) == Some(Debit(stock, w, items[i]).error)
    decreases |items|
  {
    var pre := items[..|items| - 1];
    if i == |items| - 1 {
      assert items[..i] == pre;
    } else {
      assert pre[..i] == items[..i];
      assert pre[i] == items[i];
      PreCheckFailsAt(stock, w, pre, i);
    }
  }

  /** With positive counts, whatever the reservation admits the pre-check admits too. */
  lemma ReservePassesPreCheck(stock: Stock, w: WarehouseId, items: seq<OrderItem>)
    requires PositiveCounts(items)
    requires Reserve(stock, w, items).Ok?
    ensures PreCheck(stock, w, items).None?
  {
    ReserveSucceedsIff(stock, w, items);
    forall j | 0 <= j < |items|
      ensures Key(w, items[j]) in stock && stock[Key(w, items[j])] >= items[j].count
    {
      DemandCoversItem(items, w, j);
    }
    PreCheckPassesIff(stock, w, items);
  }

  /** Returning items raises every existing row by exactly the demand on it. */
  lemma {:induction false} ReturnEffect(stock: Stock, w: WarehouseId, items: seq<OrderItem>)
    ensures forall k :: k in stock ==> ReturnAll(stock, w, items)[k] == stock[k] + Demand(items, w, k)
    decreases |items|
  {
    if |items| > 0 {
      ReturnEffect(stock, w, items[..|items| - 1]);
    }
  }

  lemma ReturnKeepsNonNegative(stock: Stock, w: WarehouseId, items: seq<OrderItem>)
    requires NonNegative(stock)
    requires PositiveCounts(items)
    ensures NonNegative(ReturnAll(stock, w, items))
  {
    ReturnEffect(stock, w, items);
    forall k | k in stock ensures Demand(items, w, k) >= 0 {
      DemandNonNegative(items, w, k);
    }
  }

  /** Re-reserving the items that were just returned always succeeds and gives
      back the table as it was before the return. */
  lemma ReserveAfterReturn(stock: Stock, w: WarehouseId, items: seq<OrderItem>)
    requires NonNegative(stock)
    requires PositiveCounts(items)
    requires forall j :: 0 <= j < |items| ==> Key(w, items[j]) in stock
    ensures Reserve(ReturnAll(stock, w, items), w, items) == Ok(stock)
  {
    var t := ReturnAll(stock, w, items);
    ReturnEffect(stock, w, items);
    ReserveSucceedsIff(t, w, items);
    assert Covered(t, w, items);
    ReserveEffect(t, w, items);
    var r := Reserve(t, w, items).value;
    assert r.Keys == stock.Keys;
    assert forall k :: k in r ==> r[k] == stock[k];
    assert r == stock;
  }

  lemma {:induction false} NetAppend(a: seq<StockMovement>, b: seq<StockMovement>, k: StockKey)
    ensures Net(a + b, k) == Net(a, k) + Net(b, k)
    decreases |b|
  {
    if |b| == 0 {
      assert a + b == a;
    } else {
      assert (a + b)[..|a + b| - 1] == a + b[..|b| - 1];
      NetAppend(a, b[..|b| - 1], k);
    }
  }

  /** The movements of a reservation sum, per row, to minus the demand on it. */
  lemma {:induction false} NetOutgoing(w: WarehouseId, items: seq<OrderItem>, kind: MovementType, k: StockKey)
    ensures Net(Outgoing(w, items, kind), k) == -Demand(items, w, k)
    decreases |items|
  {
    if |items| > 0 {
      var ms := Outgoing(w, items, kind);
      assert ms[..|ms| - 1] == Outgoing(w, items[..|items| - 1], kind);
      NetOutgoing(w, items[..|items| - 1], kind, k);
    }
  }

  /** The movements of a return sum, per row, to the demand on it. */
  lemma {:induction false} NetIncoming(w: WarehouseId, items: seq<OrderItem>, kind: MovementType, k: StockKey)
    ensures Net(Incoming(w, items, kind), k) == Demand(items, w, k)
    decreases |items|
  {
    if |items| > 0 {
      var ms := Incoming(w, items, kind);
      assert ms[..|ms| - 1] == Incoming(w, items[..|items| - 1], kind);
      NetIncoming(w, items[..|items| - 1], kind, k);
    }
  }
}
