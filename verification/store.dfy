/** The in-memory data gateway of services/supabaseService.ts: a product
    list, a table list and an order list, with the order upsert/close
    protocol that keeps totals and table occupancy consistent. */
module Store {
  import opened Wrappers
  import opened Seqs
  import opened Domain

  datatype Store = Store(products: seq<Product>, tables: seq<Table>, orders: seq<Order>)

  /** What the program draws from `generateId`, `generateOrderNumber` and the
      clock when it creates a record. */
  datatype Fresh = Fresh(id: Id, orderNumber: string, createdAt: string)

  /** A write together with the record it returns. */
  datatype Written = Written(store: Store, order: Order)

  /** `Partial<Product>` as sent by the product form. */
  datatype ProductPatch = ProductPatch(
    id: Field<Id>,
    name: Field<string>,
    price: Field<real>,
    unit: Field<ProductUnit>,
    kind: Field<ProductType>,
    category: Field<ProductCategory>)

  const OrderNotFound := "Order not found"

  function OrderWithId(id: Field<Id>): Order -> bool {
    (o: Order) => id == Given(o.id)
  }

  function TableWithId(id: Id): Table -> bool {
    (t: Table) => t.id == id
  }

  function ProductWithId(id: Id): Product -> bool {
    (p: Product) => p.id == id
  }

  predicate IsActive(o: Order) {
    o.status != Paid && o.status != Cancelled
  }

  /** Every stored total is the sum of its order's line totals. */
  predicate TotalsMatch(orders: seq<Order>) {
    forall j :: 0 <= j < |orders| ==> orders[j].total == LinesTotal(orders[j].items)
  }

  /** A table that points at an order is occupied. */
  predicate OccupancyMatches(tables: seq<Table>) {
    forall j :: 0 <= j < |tables| ==> tables[j].currentOrder.Some? ==> tables[j].status == Occupied
  }

  predicate UniqueOrderIds(orders: seq<Order>) {
    forall i, j :: 0 <= i < j < |orders| ==> orders[i].id != orders[j].id
  }

  predicate HasOrder(orders: seq<Order>, id: Field<Id>) {
    exists j :: 0 <= j < |orders| && id == Given(orders[j].id)
  }

  /** The store invariant the order operations keep. */
  predicate Consistent(s: Store) {
    TotalsMatch(s.orders) && OccupancyMatches(s.tables) && UniqueOrderIds(s.orders)
  }

  /** `getActiveOrders`: the orders neither paid nor cancelled, in store order. */
  function ActiveOrders(s: Store): (r: seq<Order>)
    ensures forall j :: 0 <= j < |r| ==> IsActive(r[j]) && r[j] in s.orders
    ensures forall j :: 0 <= j < |s.orders| && IsActive(s.orders[j]) ==> s.orders[j] in r
    ensures (forall j :: 0 <= j < |s.orders| ==> IsActive(s.orders[j])) ==> r == s.orders
  {
    FilterAll(s.orders, IsActive);
    Filter(s.orders, IsActive)
  }

  /** `getActiveOrders` works piecewise on a split order list, so the active
      orders come back in store order; callers that take the first match
      see the earliest stored one. */
  lemma ActiveOrdersKeepOrder(s: Store, a: seq<Order>, b: seq<Order>)
    requires s.orders == a + b
    ensures ActiveOrders(s) == Filter(a, IsActive) + Filter(b, IsActive)
  {
    FilterConcat(a, b, IsActive);
  }

  /** The fields a brand-new order starts from before the payload is spread
      over it. */
  function Defaults(oracle: Fresh): Order {
    Order(oracle.id, None, Pending, [], 0.0, oracle.createdAt, oracle.orderNumber)
  }

  /** An order whose total is recomputed from its items. */
  function Totalled(o: Order): (r: Order)
    ensures r.total == LinesTotal(r.items)
    ensures r.items == o.items && r.id == o.id && r.tableId == o.tableId && r.status == o.status
  {
    o.(total := LinesTotal(o.items))
  }

  /** The table write after creating an order bound to a table: the first table
      with that id becomes occupied by the order; nothing else changes. */
  function Occupy(tables: seq<Table>, tableId: Option<Id>, orderId: Id): (r: seq<Table>)
    ensures |r| == |tables|
    ensures !IsSet(tableId) ==> r == tables
    ensures IsSet(tableId) && (forall j :: 0 <= j < |tables| ==> tables[j].id != tableId.value) ==> r == tables
    ensures IsSet(tableId) ==>
              forall k :: FirstAt(tables, TableWithId(tableId.value), k) ==>
                r == tables[k := tables[k].(status := Occupied, currentOrder := Some(orderId))]
    ensures OccupancyMatches(tables) ==> OccupancyMatches(r)
  {
    if !IsSet(tableId) then tables
    else
      match FirstIndex(tables, TableWithId(tableId.value))
      case None => tables
      case Some(k) => tables[k := tables[k].(status := Occupied, currentOrder := Some(orderId))]
  }

  /** The table write after closing an order: the first table with the order's
      table id becomes available and forgets its order. */
  function Release(tables: seq<Table>, tableId: Option<Id>): (r: seq<Table>)
    ensures |r| == |tables|
    ensures !IsSet(tableId) ==> r == tables
    ensures IsSet(tableId) && (forall j :: 0 <= j < |tables| ==> tables[j].id != tableId.value) ==> r == tables
    ensures IsSet(tableId) ==>
              forall k :: FirstAt(tables, TableWithId(tableId.value), k) ==>
                r == tables[k := tables[k].(status := Available, currentOrder := None)]
    ensures OccupancyMatches(tables) ==> OccupancyMatches(r)
  {
    if !IsSet(tableId) then tables
    else
      match FirstIndex(tables, TableWithId(tableId.value))
      case None => tables
      case Some(k) => tables[k := tables[k].(status := Available, currentOrder := None)]
  }

  /** `upsertOrder(payload)`: merge into the first order with the payload's id,
      or create a new order from defaults overridden by the payload; either
      way the total is recomputed from the items. */
  function UpsertOrder(s: Store, p: PartialOrder, oracle: Fresh): (r: Written)
    ensures r.order.total == LinesTotal(r.order.items)
    ensures p.items.Given? ==> r.order.items == p.items.value
    ensures r.store.products == s.products
    ensures HasOrder(s.orders, p.id) ==>
              && r.store.tables == s.tables
              && exists k :: FirstAt(s.orders, OrderWithId(p.id), k)
                   && r.order == Totalled(Spread(s.orders[k], p))
                   && r.store.orders == s.orders[k := r.order]
    ensures !HasOrder(s.orders, p.id) ==>
              && r.store.orders == s.orders + [r.order]
              && r.order.id == p.id.Or(oracle.id)
              && r.order.status == p.status.Or(Pending)
              && r.order.items == p.items.Or([])
              && r.order.tableId == p.tableId.Or(None)
              && r.store.tables == Occupy(s.tables, r.order.tableId, r.order.id)
    ensures TotalsMatch(s.orders) ==> TotalsMatch(r.store.orders)
    ensures OccupancyMatches(s.tables) ==> OccupancyMatches(r.store.tables)
  {
    match FirstIndex(s.orders, OrderWithId(p.id))
    case Some(k) =>
      var order := Totalled(Spread(s.orders[k], p));
      Written(s.(orders := s.orders[k := order]), order)
    case None =>
      var order := Totalled(Spread(Defaults(oracle), p));
      Written(Store(s.products, Occupy(s.tables, order.tableId, order.id), s.orders + [order]), order)
  }

  /** `closeOrder(orderId)`: the first order with that id becomes paid and its
      table, if any, is released; an unknown id throws. */
  function CloseOrder(s: Store, orderId: Id): (r: Result<Written, string>)
    ensures r.Failure? <==> !HasOrder(s.orders, Given(orderId))
    ensures r.Failure? ==> r.error == OrderNotFound
    ensures r.Success? ==>
              && r.value.order.status == Paid
              && r.value.store.products == s.products
              && exists k :: FirstAt(s.orders, OrderWithId(Given(orderId)), k)
                   && r.value.order == s.orders[k].(status := Paid)
                   && r.value.store.orders == s.orders[k := r.value.order]
                   && r.value.store.tables == Release(s.tables, s.orders[k].tableId)
    ensures r.Success? && TotalsMatch(s.orders) ==> TotalsMatch(r.value.store.orders)
    ensures r.Success? && OccupancyMatches(s.tables) ==> OccupancyMatches(r.value.store.tables)
    ensures r.Success? && UniqueOrderIds(s.orders) ==> UniqueOrderIds(r.value.store.orders)
  {
    match FirstIndex(s.orders, OrderWithId(Given(orderId)))
    case None => Failure(OrderNotFound)
    case Some(k) =>
      var order := s.orders[k].(status := Paid);
      Success(Written(Store(s.products, Release(s.tables, s.orders[k].tableId), s.orders[k := order]), order))
  }

  /** The new order's id is unused when the payload names no stored order and
      the oracle id is unused; so upserts keep order ids unique. */
  lemma UpsertKeepsIdsUnique(s: Store, p: PartialOrder, oracle: Fresh)
    requires UniqueOrderIds(s.orders)
    requires !HasOrder(s.orders, Given(oracle.id))
    ensures UniqueOrderIds(UpsertOrder(s, p, oracle).store.orders)
  {
    var r := UpsertOrder(s, p, oracle);
    if HasOrder(s.orders, p.id) {
      var k :| FirstAt(s.orders, OrderWithId(p.id), k) && r.store.orders == s.orders[k := r.order];
      assert p.id == Given(s.orders[k].id);
      assert r.order.id == s.orders[k].id;
    } else {
      assert forall j :: 0 <= j < |s.orders| ==> s.orders[j].id != r.order.id;
    }
  }

  /** Every order operation keeps the store consistent, given an unused oracle id. */
  lemma OperationsKeepConsistency(s: Store, p: PartialOrder, oracle: Fresh, orderId: Id)
    requires Consistent(s)
    requires !HasOrder(s.orders, Given(oracle.id))
    ensures Consistent(UpsertOrder(s, p, oracle).store)
    ensures CloseOrder(s, orderId).Success? ==> Consistent(CloseOrder(s, orderId).value.store)
  {
    UpsertKeepsIdsUnique(s, p, oracle);
  }

  /** Saving is full replacement: after an upsert that carries items, the
      order the store holds under the returned id has exactly those items and
      the matching total, whatever items it held before. */
  lemma UpsertReplacesItems(s: Store, p: PartialOrder, oracle: Fresh)
    requires UniqueOrderIds(s.orders)
    requires !HasOrder(s.orders, Given(oracle.id))
    requires p.items.Given?
    ensures var r := UpsertOrder(s, p, oracle);
            exists k :: FirstAt(r.store.orders, OrderWithId(Given(r.order.id)), k)
              && r.store.orders[k].items == p.items.value
              && r.store.orders[k].total == LinesTotal(p.items.value)
  {
    var r := UpsertOrder(s, p, oracle);
    UpsertKeepsIdsUnique(s, p, oracle);
    var os := r.store.orders;
    if HasOrder(s.orders, p.id) {
      var k :| FirstAt(s.orders, OrderWithId(p.id), k) && r.order == Totalled(Spread(s.orders[k], p))
               && os == s.orders[k := r.order];
      assert r.order.id == s.orders[k].id;
      assert FirstAt(os, OrderWithId(Given(r.order.id)), k);
    } else {
      var k := |s.orders|;
      assert os[k] == r.order;
      assert FirstAt(os, OrderWithId(Given(r.order.id)), k);
    }
  }

  /** A newly created order bound to an existing table marks the first such
      table occupied by it and leaves every other table as it was. */
  lemma CreateOccupiesTable(s: Store, p: PartialOrder, oracle: Fresh, k: nat)
    requires !HasOrder(s.orders, p.id)
    requires var t := p.tableId.Or(None); IsSet(t) && FirstAt(s.tables, TableWithId(t.value), k)
    ensures var r := UpsertOrder(s, p, oracle);
            && |r.store.tables| == |s.tables|
            && r.store.tables[k].status == Occupied
            && r.store.tables[k].currentOrder == Some(r.order.id)
            && forall j :: 0 <= j < |s.tables| && j != k ==> r.store.tables[j] == s.tables[j]
  {
  }

  /** After a successful close the order is no longer active: no order with
      its id is returned by `getActiveOrders`. */
  lemma ClosedOrderLeavesActive(s: Store, orderId: Id)
    requires UniqueOrderIds(s.orders)
    requires CloseOrder(s, orderId).Success?
    ensures forall o :: o in ActiveOrders(CloseOrder(s, orderId).value.store) ==> o.id != orderId
  {
    var w := CloseOrder(s, orderId).value;
    var k :| FirstAt(s.orders, OrderWithId(Given(orderId)), k)
             && w.order == s.orders[k].(status := Paid) && w.store.orders == s.orders[k := w.order];
    forall o | o in ActiveOrders(w.store) ensures o.id != orderId {
      var j :| 0 <= j < |w.store.orders| && w.store.orders[j] == o;
      if j != k {
        assert s.orders[j].id != s.orders[k].id;
      }
    }
  }

  /** Closing releases the order's table: when the first order with the id
      (at `i`) is bound to an existing table, the close succeeds and the first
      such table (at `k`) ends available with no current order. */
  lemma CloseReleasesTable(s: Store, orderId: Id, i: nat, k: nat)
    requires FirstAt(s.orders, OrderWithId(Given(orderId)), i)
    requires IsSet(s.orders[i].tableId) && FirstAt(s.tables, TableWithId(s.orders[i].tableId.value), k)
    ensures CloseOrder(s, orderId).Success?
    ensures var t := CloseOrder(s, orderId).value.store.tables;
            k < |t| && t[k].status == Available && t[k].currentOrder == None
  {
    assert HasOrder(s.orders, Given(orderId));
  }

  /** The product a form without an id creates; every field except the id must
      be filled in, as the program's `as Product` cast presumes. */
  predicate Complete(patch: ProductPatch) {
    patch.name.Given? && patch.price.Given? && patch.unit.Given? && patch.kind.Given? && patch.category.Given?
  }

  /** `{ ...product, ...patch }`. */
  function Patch(product: Product, patch: ProductPatch): Product {
    Product(patch.id.Or(product.id), patch.name.Or(product.name), patch.price.Or(product.price),
            patch.unit.Or(product.unit), patch.kind.Or(product.kind), patch.category.Or(product.category))
  }

  /** `saveProduct(patch)`: a patch with an id updates the first product with
      that id, if any, and never inserts; a patch without one appends a new
      product under the fresh id. */
  function SaveProduct(s: Store, patch: ProductPatch, freshId: Id): (r: Store)
    requires !IsGiven(patch.id) ==> Complete(patch)
    ensures r.tables == s.tables && r.orders == s.orders
    ensures IsGiven(patch.id) ==> |r.products| == |s.products|
    ensures IsGiven(patch.id) && (forall j :: 0 <= j < |s.products| ==> s.products[j].id != patch.id.value) ==>
              r.products == s.products
    ensures IsGiven(patch.id) ==>
              forall k :: FirstAt(s.products, ProductWithId(patch.id.value), k) ==>
                r.products == s.products[k := Patch(s.products[k], patch)]
    ensures !IsGiven(patch.id) ==>
              && |r.products| == |s.products| + 1
              && r.products[..|s.products|] == s.products
              && r.products[|s.products|].id == patch.id.Or(freshId)
              && r.products[|s.products|].name == patch.name.value
              && r.products[|s.products|].price == patch.price.value
  {
    if IsGiven(patch.id) then
      match FirstIndex(s.products, ProductWithId(patch.id.value))
      case None => s
      case Some(k) => s.(products := s.products[k := Patch(s.products[k], patch)])
    else
      var created := Product(patch.id.Or(freshId), patch.name.value, patch.price.value,
                             patch.unit.value, patch.kind.value, patch.category.value);
      s.(products := s.products + [created])
  }

  function OtherThan(id: Id): Product -> bool {
    (p: Product) => p.id != id
  }

  /** `deleteProduct(id)`: removes every product with that id and keeps the
      rest in order. */
  function DeleteProduct(s: Store, id: Id): (r: Store)
    ensures r.tables == s.tables && r.orders == s.orders
    ensures forall j :: 0 <= j < |r.products| ==> r.products[j].id != id && r.products[j] in s.products
    ensures forall j :: 0 <= j < |s.products| && s.products[j].id != id ==> s.products[j] in r.products
  {
    s.(products := Filter(s.products, OtherThan(id)))
  }

  /** Saving a patch for a stored id rewrites that product in place, where a
      lookup by the id still finds it first, and leaves every other product
      as it was. */
  lemma SaveUpdatesOneProduct(s: Store, patch: ProductPatch, freshId: Id, k: nat)
    requires IsGiven(patch.id) && FirstAt(s.products, ProductWithId(patch.id.value), k)
    ensures var r := SaveProduct(s, patch, freshId).products;
            && FirstAt(r, ProductWithId(patch.id.value), k)
            && r[k] == Patch(s.products[k], patch)
            && forall j :: 0 <= j < |r| && j != k ==> r[j] == s.products[j]
  {
    var r := SaveProduct(s, patch, freshId).products;
    assert r == s.products[k := Patch(s.products[k], patch)];
  }

  /** Deleting a product just created from a form without an id, under an
      unused fresh id, restores the store as it was. (A form carrying the
      empty id keeps it: the spread overrides the generated one.) */
  lemma DeleteUndoesCreate(s: Store, patch: ProductPatch, freshId: Id)
    requires patch.id.Absent? && Complete(patch)
    requires forall j :: 0 <= j < |s.products| ==> s.products[j].id != freshId
    ensures DeleteProduct(SaveProduct(s, patch, freshId), freshId) == s
  {
    var created := SaveProduct(s, patch, freshId).products[|s.products|];
    assert created.id == freshId;
    assert SaveProduct(s, patch, freshId).products == s.products + [created];
    FilterConcat(s.products, [created], OtherThan(freshId));
    FilterAll(s.products, OtherThan(freshId));
    assert Filter([created], OtherThan(freshId)) == [];
  }

  /** Deleting works piecewise on a split product list, so the survivors keep
      their order. */
  lemma DeleteKeepsOrder(s: Store, a: seq<Product>, b: seq<Product>, id: Id)
    requires s.products == a + b
    ensures DeleteProduct(s, id).products == Filter(a, OtherThan(id)) + Filter(b, OtherThan(id))
  {
    FilterConcat(a, b, OtherThan(id));
  }
}

