/** The record shapes of the point-of-sale system (types.ts): products,
    order lines, orders and tables, with money and quantities as exact reals. */
module Domain {
  import opened Wrappers

  type Id = string

  datatype ProductUnit = Kg | G | Qty | Portion
  datatype ProductType = Retail | Service
  datatype ProductCategory = Nuts | DriedFruit | Drinks | Dessert | Other
  datatype OrderStatus = Pending | Preparing | Served | Paid | Cancelled
  datatype PaymentMethod = Cash | CreditCard
  datatype TableStatus = Available | Occupied | Reserved

  /** A catalog entry; `price` is per kg for `Kg` products and per piece otherwise. */
  datatype Product = Product(
    id: Id,
    name: string,
    price: real,
    unit: ProductUnit,
    kind: ProductType,
    category: ProductCategory)

  /** One line of a cart or an order; name and unit price are snapshots taken
      when the line was created. */
  datatype OrderItem = OrderItem(
    id: Id,
    productId: Id,
    productName: string,
    quantity: real,
    unitPrice: real,
    totalPrice: real,
    unit: ProductUnit)

  /** A persisted order; `tableId == None` is a quick sale. */
  datatype Order = Order(
    id: Id,
    tableId: Option<Id>,
    status: OrderStatus,
    items: seq<OrderItem>,
    total: real,
    createdAt: string,
    orderNumber: string)

  datatype Table = Table(
    id: Id,
    name: string,
    status: TableStatus,
    currentOrder: Option<Id>,
    needsService: bool)

  /** `Partial<Order>`: the session's current order and the payload of an upsert. */
  datatype PartialOrder = PartialOrder(
    id: Field<Id>,
    tableId: Field<Option<Id>>,
    status: Field<OrderStatus>,
    items: Field<seq<OrderItem>>,
    total: Field<real>,
    createdAt: Field<string>,
    orderNumber: Field<string>)

  /** The empty object `{}`. */
  const NoOrder := PartialOrder(Absent, Absent, Absent, Absent, Absent, Absent, Absent)

  /** JavaScript truthiness of an optional id: present and not the empty string. */
  predicate IsSet(r: Option<Id>) {
    r.Some? && r.value != ""
  }

  /** JavaScript truthiness of an optional key holding an id. */
  predicate IsGiven(f: Field<Id>) {
    f.Given? && f.value != ""
  }

  /** Every key of an order, as a partial record. */
  function Whole(o: Order): (p: PartialOrder)
    ensures p.id == Given(o.id) && p.items == Given(o.items) && p.total == Given(o.total)
    ensures p.tableId == Given(o.tableId) && p.status == Given(o.status)
  {
    PartialOrder(Given(o.id), Given(o.tableId), Given(o.status), Given(o.items),
                 Given(o.total), Given(o.createdAt), Given(o.orderNumber))
  }

  /** `{ ...o, ...p }`: the keys present in `p` override those of `o`. */
  function Spread(o: Order, p: PartialOrder): (r: Order)
    ensures p.id.Absent? ==> r.id == o.id
    ensures p.items.Given? ==> r.items == p.items.value
    ensures p.items.Absent? ==> r.items == o.items
  {
    Order(p.id.Or(o.id), p.tableId.Or(o.tableId), p.status.Or(o.status),
          p.items.Or(o.items), p.total.Or(o.total), p.createdAt.Or(o.createdAt),
          p.orderNumber.Or(o.orderNumber))
  }

  /** `items.reduce((sum, item) => sum + item.total_price, 0)`: the sum of the
      line totals, accumulated from the left. */
  function LinesTotal(items: seq<OrderItem>): real {
    if |items| == 0 then 0.0
    else LinesTotal(items[..|items| - 1]) + items[|items| - 1].totalPrice
  }

  /** A line whose total is its quantity times its snapshotted unit price. */
  predicate Priced(line: OrderItem) {
    line.totalPrice == line.quantity * line.unitPrice
  }

  predicate AllPriced(items: seq<OrderItem>) {
    forall j :: 0 <= j < |items| ==> Priced(items[j])
  }

  /** Appending one line adds exactly its total. */
  lemma LinesTotalAppend(items: seq<OrderItem>, line: OrderItem)
    ensures LinesTotal(items + [line]) == LinesTotal(items) + line.totalPrice
  {
    assert (items + [line])[..|items|] == items;
  }

  /** Replacing one line changes the total by exactly the difference of the
      two line totals. */
  lemma {:induction false} LinesTotalUpdate(items: seq<OrderItem>, k: nat, line: OrderItem)
    requires k < |items|
    ensures LinesTotal(items[k := line]) == LinesTotal(items) - items[k].totalPrice + line.totalPrice
  {
    var n := |items|;
    if k == n - 1 {
      assert items[k := line][..n - 1] == items[..n - 1];
    } else {
      assert items[k := line][..n - 1] == items[..n - 1][k := line];
      LinesTotalUpdate(items[..n - 1], k, line);
    }
  }

  /** When every line is priced, the total is the sum of quantity times unit
      price over the lines. */
  lemma {:induction false} PricedTotal(items: seq<OrderItem>)
    ensures AllPriced(items) ==> LinesTotal(items) == QuantityTimesPrice(items)
  {
    if |items| > 0 && AllPriced(items) {
      PricedTotal(items[..|items| - 1]);
    }
  }

  /** Sum of quantity times unit price, the reference definition of a cart's worth. */
  function QuantityTimesPrice(items: seq<OrderItem>): real {
    if |items| == 0 then 0.0
    else QuantityTimesPrice(items[..|items| - 1])
         + items[|items| - 1].quantity * items[|items| - 1].unitPrice
  }
}
