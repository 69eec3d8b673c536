/** The order/cart reconciliation of App.tsx: opening a table session,
    saving, the realtime refresh, payment completion and the delete-table
    guard, each as a transition of the App state given the gateway's answer
    (None where the gateway call threw). */
module Session {
  import opened Wrappers
  import opened Seqs
  import opened Domain
  import opened Cart
  import Store

  datatype View = TablesView | PosView | OrdersView | SchemaView | ManagementView

  /** What `refreshData` fetches. */
  datatype Catalog = Catalog(products: seq<Product>, tables: seq<Table>)

  /** The part of the App component's state that the order logic reads and
      writes; `signedIn` is `session && !isCustomerMode`, `paying` is
      `paymentModalOpen`. */
  datatype App = App(
    signedIn: bool,
    view: View,
    products: seq<Product>,
    tables: seq<Table>,
    activeTable: Option<Id>,
    order: PartialOrder,
    cart: seq<OrderItem>,
    paying: bool)

  /** The unsaved order a session starts with: bound to `tableId`, pending,
      no items, total 0 and no id yet. */
  function PendingShell(tableId: Option<Id>): PartialOrder {
    PartialOrder(Absent, Given(tableId), Given(Pending), Given([]), Given(0.0), Absent, Absent)
  }

  function Refreshed(s: App, c: Catalog): App {
    s.(products := c.products, tables := c.tables)
  }

  function OrderWithId(id: Id): Order -> bool {
    (o: Order) => o.id == id
  }

  function OrderAtTable(tableId: Option<Id>): Order -> bool {
    (o: Order) => o.tableId == tableId
  }

  /** The order a table points at: the truthy `current_order_id` of the first
      table with that id. */
  function ReferencedOrder(tables: seq<Table>, tableId: Option<Id>): (r: Option<Id>)
    ensures r.Some? ==> r.value != "" && IsSet(tableId)
    ensures r.Some? <==>
              IsSet(tableId) &&
              exists k :: FirstAt(tables, Store.TableWithId(tableId.value), k) && IsSet(tables[k].currentOrder)
  {
    if !IsSet(tableId) then None
    else
      match FirstIndex(tables, Store.TableWithId(tableId.value))
      case None => None
      case Some(k) => if IsSet(tables[k].currentOrder) then tables[k].currentOrder else None
  }

  /** `handleTableSelect(tableId)` given the fetched active orders: load the
      order the table points at, or start a pending shell for the table (a
      quick sale for `None`). */
  function SelectTable(s: App, tableId: Option<Id>, active: Option<seq<Order>>): (r: App)
    ensures r.activeTable == tableId
    ensures r.products == s.products && r.tables == s.tables && r.paying == s.paying && r.signedIn == s.signedIn
    ensures ReferencedOrder(s.tables, tableId).None? ==>
              r.view == PosView && r.order == PendingShell(tableId) && r.cart == []
    ensures ReferencedOrder(s.tables, tableId).Some? && active.None? ==> r == s.(activeTable := tableId)
    ensures ReferencedOrder(s.tables, tableId).Some? && active.Some? ==>
              var id := ReferencedOrder(s.tables, tableId).value;
              && r.view == PosView
              && ((forall j :: 0 <= j < |active.value| ==> active.value[j].id != id) ==>
                    r.order == PendingShell(tableId) && r.cart == [])
              && ((exists j :: 0 <= j < |active.value| && active.value[j].id == id) ==>
                    exists k :: FirstAt(active.value, OrderWithId(id), k)
                      && r.order == Whole(active.value[k]) && r.cart == active.value[k].items)
  {
    var s1 := s.(activeTable := tableId);
    var shell := s1.(order := PendingShell(tableId), cart := [], view := PosView);
    match ReferencedOrder(s.tables, tableId)
    case None => shell
    case Some(id) =>
      match active
      case None => s1
      case Some(orders) =>
        match FirstIndex(orders, OrderWithId(id))
        case None => shell
        case Some(k) => s1.(order := Whole(orders[k]), cart := orders[k].items, view := PosView)
  }

  /** Opening a table against the store's active orders, when stored totals
      match their lines, leaves the session showing an order whose total is
      its cart's total. */
  lemma SelectTableShowsCartTotal(s: App, tableId: Option<Id>, st: Store.Store)
    requires Store.TotalsMatch(st.orders)
    ensures var r := SelectTable(s, tableId, Some(Store.ActiveOrders(st)));
            ReferencedOrder(s.tables, tableId).Some? ==> r.order.total == Given(CartTotal(r.cart))
  {
    var active := Store.ActiveOrders(st);
    var r := SelectTable(s, tableId, Some(active));
    match ReferencedOrder(s.tables, tableId)
    case None =>
    case Some(id) =>
      match FirstIndex(active, OrderWithId(id))
      case None =>
      case Some(k) =>
        assert active[k] in st.orders;
        assert r.cart == active[k].items;
  }

  /** The realtime change handler: refetch the catalog, then re-sync the active
      table's order and cart from the active orders. */
  function Realtime(s: App, catalog: Option<Catalog>, active: Option<seq<Order>>): (r: App)
    ensures !s.signedIn || catalog.None? ==> r == s
    ensures s.signedIn && catalog.Some? ==>
              && r.products == catalog.value.products && r.tables == catalog.value.tables
              && r.activeTable == s.activeTable && r.view == s.view && r.paying == s.paying
    ensures s.signedIn && catalog.Some? && (!IsSet(s.activeTable) || active.None?) ==>
              r.order == s.order && r.cart == s.cart
    ensures s.signedIn && catalog.Some? && IsSet(s.activeTable) && active.Some? ==>
              var orders := active.value;
              && ((exists j :: 0 <= j < |orders| && orders[j].tableId == s.activeTable) ==>
                    exists k :: FirstAt(orders, OrderAtTable(s.activeTable), k)
                      && r.order == Whole(orders[k]) && r.cart == orders[k].items)
              && ((forall j :: 0 <= j < |orders| ==> orders[j].tableId != s.activeTable) ==>
                    if IsGiven(s.order.id) then r.order == PendingShell(s.activeTable) && r.cart == []
                    else r.order == s.order && r.cart == s.cart)
  {
    if !s.signedIn || catalog.None? then s
    else
      var s1 := Refreshed(s, catalog.value);
      if !IsSet(s.activeTable) || active.None? then s1
      else
        match FirstIndex(active.value, OrderAtTable(s.activeTable))
        case Some(k) => s1.(order := Whole(active.value[k]), cart := active.value[k].items)
        case None =>
          if IsGiven(s.order.id) then s1.(order := PendingShell(s.activeTable), cart := [])
          else s1
  }

  /** A realtime refresh against the store's active orders keeps the shown
      order's total equal to its cart's total, when stored totals match their
      lines. */
  lemma RealtimeKeepsCartTotal(s: App, catalog: Option<Catalog>, st: Store.Store)
    requires Store.TotalsMatch(st.orders)
    requires s.order.total == Given(CartTotal(s.cart))
    ensures var r := Realtime(s, catalog, Some(Store.ActiveOrders(st)));
            r.order.total == Given(CartTotal(r.cart))
  {
    var active := Store.ActiveOrders(st);
    if s.signedIn && catalog.Some? && IsSet(s.activeTable) {
      match FirstIndex(active, OrderAtTable(s.activeTable))
      case None =>
      case Some(k) =>
        assert active[k] in st.orders;
    }
  }

  /** When an upsert creates the only active order of the session's table, the
      next realtime refresh loads exactly that order and its lines. */
  lemma RealtimeLoadsCreatedOrder(s: App, catalog: Catalog, st: Store.Store, p: PartialOrder, oracle: Store.Fresh)
    requires s.signedIn && IsSet(s.activeTable)
    requires !Store.HasOrder(st.orders, p.id)
    requires forall j :: 0 <= j < |st.orders| && Store.IsActive(st.orders[j]) ==> st.orders[j].tableId != s.activeTable
    requires var w := Store.UpsertOrder(st, p, oracle);
             w.order.tableId == s.activeTable && Store.IsActive(w.order)
    ensures var w := Store.UpsertOrder(st, p, oracle);
            var r := Realtime(s, Some(catalog), Some(Store.ActiveOrders(w.store)));
            r.order == Whole(w.order) && r.cart == w.order.items
  {
    var w := Store.UpsertOrder(st, p, oracle);
    var before := Filter(st.orders, Store.IsActive);
    CreatedOrderIsLastActive(st, w);
    NoEarlierMatch(before, st.orders, s.activeTable);
    LastMatchFirst(before, w.order, s.activeTable);
    RealtimeLoadsMatch(s, catalog, before + [w.order], |before|);
  }

  /** A created active order comes back last among the active orders. */
  lemma CreatedOrderIsLastActive(st: Store.Store, w: Store.Written)
    requires w.store.orders == st.orders + [w.order] && Store.IsActive(w.order)
    ensures Store.ActiveOrders(w.store) == Filter(st.orders, Store.IsActive) + [w.order]
  {
    Store.ActiveOrdersKeepOrder(w.store, st.orders, [w.order]);
    assert Filter([w.order], Store.IsActive) == [w.order];
  }

  /** A refresh whose first active order at the session's table sits at `k`
      loads that order and its lines. */
  lemma RealtimeLoadsMatch(s: App, catalog: Catalog, orders: seq<Order>, k: nat)
    requires s.signedIn && IsSet(s.activeTable)
    requires FirstIndex(orders, OrderAtTable(s.activeTable)) == Some(k)
    ensures var r := Realtime(s, Some(catalog), Some(orders));
            r.order == Whole(orders[k]) && r.cart == orders[k].items
  {
  }

  /** None of the active orders kept from `orders` sits at `tableId`. */
  lemma NoEarlierMatch(before: seq<Order>, orders: seq<Order>, tableId: Option<Id>)
    requires before == Filter(orders, Store.IsActive)
    requires forall j :: 0 <= j < |orders| && Store.IsActive(orders[j]) ==> orders[j].tableId != tableId
    ensures forall j :: 0 <= j < |before| ==> before[j].tableId != tableId
  {
    forall j | 0 <= j < |before| ensures before[j].tableId != tableId {
      assert before[j] in orders && Store.IsActive(before[j]);
    }
  }

  /** An order appended after orders at other tables is the first match for its table. */
  lemma LastMatchFirst(before: seq<Order>, o: Order, tableId: Option<Id>)
    requires forall j :: 0 <= j < |before| ==> before[j].tableId != tableId
    requires o.tableId == tableId
    ensures FirstIndex(before + [o], OrderAtTable(tableId)) == Some(|before|)
  {
    var all := before + [o];
    assert FirstAt(all, OrderAtTable(tableId), |before|);
  }

  /** The payload `saveOrder` sends: the current order with the cart as its
      items and the cart total as its total; None for an empty cart, which
      makes no gateway call. */
  function SavePayload(s: App): (r: Option<PartialOrder>)
    ensures r.None? <==> |s.cart| == 0
    ensures r.Some? ==>
              && r.value.items == Given(s.cart)
              && r.value.total == Given(CartTotal(s.cart))
              && r.value.id == s.order.id && r.value.tableId == s.order.tableId && r.value.status == s.order.status
    ensures r.Some? && AllPriced(s.cart) ==> r.value.total == Given(QuantityTimesPrice(s.cart))
  {
    if |s.cart| == 0 then None
    else Some(s.order.(items := Given(s.cart), total := Given(CartTotal(s.cart))))
  }

  /** `saveOrder` given the gateway's echo of the payload and the catalog
      refetched afterwards: on success the order and the cart become the echo;
      when the upsert throws nothing changes. */
  function SaveOrder(s: App, reply: Option<Order>, refreshed: Option<Catalog>): (r: App)
    ensures SavePayload(s).None? || reply.None? ==> r == s
    ensures SavePayload(s).Some? && reply.Some? ==>
              && r.order == Whole(reply.value) && r.cart == reply.value.items
              && r.activeTable == s.activeTable && r.view == s.view && r.paying == s.paying
              && (refreshed.Some? ==> r.tables == refreshed.value.tables)
              && (refreshed.None? ==> r.tables == s.tables)
  {
    if SavePayload(s).None? || reply.None? then s
    else
      var s1 := s.(order := Whole(reply.value), cart := reply.value.items);
      match refreshed
      case None => s1
      case Some(c) => Refreshed(s1, c)
  }

  /** Saving through the in-memory store: the echoed order carries the cart as
      its items and the displayed cart total as its stored total, so the
      session's cart is unchanged and the saved total matches what was shown. */
  lemma SaveThroughStore(s: App, st: Store.Store, oracle: Store.Fresh)
    requires |s.cart| > 0
    ensures var w := Store.UpsertOrder(st, SavePayload(s).value, oracle);
            var r := SaveOrder(s, Some(w.order), Some(Catalog(w.store.products, w.store.tables)));
            && r.cart == s.cart
            && r.order.total == Given(CartTotal(s.cart))
            && r.tables == w.store.tables
  {
  }

  /** `handlePaymentComplete` given whether `closeOrder` succeeded and the
      catalog refetched afterwards: without an order id nothing happens; a
      failed close changes nothing; a successful one ends the session. */
  function PaymentComplete(s: App, closed: bool, refreshed: Option<Catalog>): (r: App)
    ensures !IsGiven(s.order.id) || !closed ==> r == s
    ensures IsGiven(s.order.id) && closed ==>
              && r.cart == [] && r.order == NoOrder && r.activeTable == None && !r.paying
              && (refreshed.Some? ==> r.view == TablesView && r.tables == refreshed.value.tables)
              && (refreshed.None? ==> r.view == s.view && r.tables == s.tables)
  {
    if !IsGiven(s.order.id) || !closed then s
    else
      var s1 := s.(paying := false, cart := [], order := NoOrder, activeTable := None);
      match refreshed
      case None => s1
      case Some(c) => Refreshed(s1, c).(view := TablesView)
  }

  /** Completing payment through the in-memory store: the session ends, the
      order leaves the active set and, when it was bound to an existing
      table, the refreshed table list shows that table free. */
  lemma PayThroughStore(s: App, st: Store.Store, k: nat)
    requires IsGiven(s.order.id)
    requires Store.UniqueOrderIds(st.orders)
    requires Store.CloseOrder(st, s.order.id.value).Success?
    requires var o := Store.CloseOrder(st, s.order.id.value).value.order;
             IsSet(o.tableId) && FirstAt(st.tables, Store.TableWithId(o.tableId.value), k)
    ensures var w := Store.CloseOrder(st, s.order.id.value).value;
            var r := PaymentComplete(s, true, Some(Catalog(w.store.products, w.store.tables)));
            && r.cart == [] && r.activeTable == None && r.view == TablesView
            && k < |r.tables| && r.tables[k].status == Available && r.tables[k].currentOrder == None
            && forall o :: o in Store.ActiveOrders(w.store) ==> o.id != s.order.id.value
  {
    var id := s.order.id.value;
    var i :| FirstAt(st.orders, Store.OrderWithId(Given(id)), i)
             && Store.CloseOrder(st, id).value.order == st.orders[i].(status := Paid);
    Store.CloseReleasesTable(st, id, i, k);
    Store.ClosedOrderLeavesActive(st, s.order.id.value);
  }

  /** The "take payment" button: with a non-empty cart it opens the payment
      dialog, first saving an order that has no id yet. */
  function PayButton(s: App, reply: Option<Order>, refreshed: Option<Catalog>): (r: App)
    ensures |s.cart| == 0 ==> r == s
    ensures |s.cart| > 0 ==> r.paying
    ensures |s.cart| > 0 && IsGiven(s.order.id) ==> r == s.(paying := true)
    ensures |s.cart| > 0 && !IsGiven(s.order.id) ==> r == SaveOrder(s, reply, refreshed).(paying := true)
  {
    if |s.cart| == 0 then s
    else if IsGiven(s.order.id) then s.(paying := true)
    else SaveOrder(s, reply, refreshed).(paying := true)
  }

  /** `saveOrder` swallows its own failure, so the payment dialog opens even
      when the preceding save threw; the order then has no id and completing
      payment does nothing. */
  lemma PaymentOpensAfterFailedSave(s: App, refreshed: Option<Catalog>, closed: bool, after: Option<Catalog>)
    requires |s.cart| > 0 && !IsGiven(s.order.id)
    ensures var r := PayButton(s, None, refreshed);
            r.paying && r.cart == s.cart && PaymentComplete(r, closed, after) == r
  {
  }

  datatype TableDeletion = Refused | Kept | Requested(tableId: Id)

  /** The guard of `handleDeleteTable`: an occupied table is refused before any
      gateway call; otherwise deletion is requested only if the operator
      confirms. */
  function DeleteTableRequest(table: Table, confirmed: bool): (r: TableDeletion)
    ensures table.status == Occupied ==> r == Refused
    ensures r.Requested? <==> table.status != Occupied && confirmed
    ensures r.Requested? ==> r.tableId == table.id
  {
    if table.status == Occupied then Refused
    else if confirmed then Requested(table.id)
    else Kept
  }
}
