/** The cart engine of App.tsx: the client-local line list of the order being
    built, with add (merging count lines), remove, edit-quantity and total. */
module Cart {
  import opened Wrappers
  import opened Seqs
  import opened Domain

  /** The line `addToCart` builds: a snapshot of the product's id, name, price
      and unit under a client-side temporary id. */
  function NewLine(product: Product, quantity: real, tempId: Id): (line: OrderItem)
    ensures Priced(line)
  {
    OrderItem(tempId, product.id, product.name, quantity, product.price,
              product.price * quantity, product.unit)
  }

  function HoldsProduct(productId: Id): OrderItem -> bool {
    (line: OrderItem) => line.productId == productId
  }

  /** Whether adding `product` merges into an existing line: only count
      ('qty') products merge, and only when the cart already holds one. */
  predicate Merges(cart: seq<OrderItem>, product: Product) {
    product.unit == Qty && exists j :: 0 <= j < |cart| && cart[j].productId == product.id
  }

  /** A line with `quantity` more, its total recomputed from its own
      snapshotted unit price. */
  function Bump(line: OrderItem, quantity: real): OrderItem {
    line.(quantity := line.quantity + quantity,
          totalPrice := (line.quantity + quantity) * line.unitPrice)
  }

  /** `addToCart(product, quantity)`. */
  function AddToCart(cart: seq<OrderItem>, product: Product, quantity: real, tempId: Id): (r: seq<OrderItem>)
    ensures Merges(cart, product) ==>
              |r| == |cart| &&
              exists k :: FirstAt(cart, HoldsProduct(product.id), k) && r == cart[k := Bump(cart[k], quantity)]
    ensures !Merges(cart, product) ==> r == cart + [NewLine(product, quantity, tempId)]
    ensures AllPriced(cart) ==> AllPriced(r)
  {
    var k := if product.unit == Qty then FirstIndex(cart, HoldsProduct(product.id)) else None;
    match k
    case Some(i) =>
      assert FirstAt(cart, HoldsProduct(product.id), i);
      BumpKeepsPriced(cart, i, quantity);
      cart[i := Bump(cart[i], quantity)]
    case None =>
      AppendKeepsPriced(cart, NewLine(product, quantity, tempId));
      cart + [NewLine(product, quantity, tempId)]
  }

  lemma BumpKeepsPriced(cart: seq<OrderItem>, k: nat, quantity: real)
    requires k < |cart|
    ensures AllPriced(cart) ==> AllPriced(cart[k := Bump(cart[k], quantity)])
  {
  }

  lemma AppendKeepsPriced(cart: seq<OrderItem>, line: OrderItem)
    requires Priced(line)
    ensures AllPriced(cart) ==> AllPriced(cart + [line])
  {
  }

  /** `cartTotal`: the sum of the line totals; for lines whose totals are
      priced it is the sum of quantity times unit price. */
  function CartTotal(cart: seq<OrderItem>): (r: real)
    ensures AllPriced(cart) ==> r == QuantityTimesPrice(cart)
  {
    PricedTotal(cart);
    LinesTotal(cart)
  }

  /** Adding a line that does not merge raises the total by the quantity
      times the product's price. */
  lemma AddNewLineTotal(cart: seq<OrderItem>, product: Product, quantity: real, tempId: Id)
    requires !Merges(cart, product)
    ensures CartTotal(AddToCart(cart, product, quantity, tempId)) == CartTotal(cart) + quantity * product.price
  {
    LinesTotalAppend(cart, NewLine(product, quantity, tempId));
  }

  /** Adding a count product to a cart that holds it, at first position `k`
      with a priced line, raises the total by the quantity times that line's
      snapshotted unit price (not the product's current price). */
  lemma AddMergeTotal(cart: seq<OrderItem>, product: Product, quantity: real, tempId: Id, k: nat)
    requires product.unit == Qty && FirstAt(cart, HoldsProduct(product.id), k) && Priced(cart[k])
    ensures CartTotal(AddToCart(cart, product, quantity, tempId)) == CartTotal(cart) + quantity * cart[k].unitPrice
  {
    assert Merges(cart, product);
    var r := AddToCart(cart, product, quantity, tempId);
    var k' :| FirstAt(cart, HoldsProduct(product.id), k') && r == cart[k' := Bump(cart[k'], quantity)];
    assert k' == k;
    MergeTotal(cart, k, quantity);
  }

  /** Bumping one priced line of a cart raises the cart total by the extra
      quantity times that line's unit price. */
  lemma MergeTotal(cart: seq<OrderItem>, k: nat, quantity: real)
    requires k < |cart| && Priced(cart[k])
    ensures LinesTotal(cart[k := Bump(cart[k], quantity)]) == LinesTotal(cart) + quantity * cart[k].unitPrice
  {
    LinesTotalUpdate(cart, k, Bump(cart[k], quantity));
    BumpTotal(cart[k], quantity);
  }

  /** Bumping a priced line adds the extra quantity times its unit price. */
  lemma BumpTotal(line: OrderItem, quantity: real)
    requires Priced(line)
    ensures Bump(line, quantity).totalPrice == line.totalPrice + quantity * line.unitPrice
  {
    var a, u := line.quantity, line.unitPrice;
    assert (a + quantity) * u == a * u + quantity * u;
  }

  /** Adding the same count product twice to a cart that lacks it yields one
      line holding both quantities; a weighed product yields two lines. */
  lemma AddTwice(cart: seq<OrderItem>, product: Product, q1: real, q2: real, id1: Id, id2: Id)
    requires forall j :: 0 <= j < |cart| ==> cart[j].productId != product.id
    ensures product.unit == Qty ==>
              var r := AddToCart(AddToCart(cart, product, q1, id1), product, q2, id2);
              |r| == |cart| + 1 && r[..|cart|] == cart &&
              r[|cart|].quantity == q1 + q2 && r[|cart|].totalPrice == (q1 + q2) * product.price
    ensures product.unit == Kg ==>
              AddToCart(AddToCart(cart, product, q1, id1), product, q2, id2)
                == cart + [NewLine(product, q1, id1), NewLine(product, q2, id2)]
  {
    var c1 := AddToCart(cart, product, q1, id1);
    assert c1[|cart|].productId == product.id;
    if product.unit == Qty {
      assert FirstAt(c1, HoldsProduct(product.id), |cart|);
      var r := AddToCart(c1, product, q2, id2);
      var k :| FirstAt(c1, HoldsProduct(product.id), k) && r == c1[k := Bump(c1[k], q2)];
      assert k == |cart|;
    }
  }

  function KeepsOtherThan(itemId: Id): OrderItem -> bool {
    (line: OrderItem) => line.id != itemId
  }

  /** `removeFromCart(itemId)`: drops every line with that id. */
  function RemoveFromCart(cart: seq<OrderItem>, itemId: Id): (r: seq<OrderItem>)
    ensures forall j :: 0 <= j < |r| ==> r[j].id != itemId && r[j] in cart
    ensures forall j :: 0 <= j < |cart| && cart[j].id != itemId ==> cart[j] in r
    ensures (forall j :: 0 <= j < |cart| ==> cart[j].id != itemId) ==> r == cart
    ensures AllPriced(cart) ==> AllPriced(r)
  {
    FilterAll(cart, KeepsOtherThan(itemId));
    Filter(cart, KeepsOtherThan(itemId))
  }

  /** Removing keeps the order of the remaining lines: it works piecewise on
      a split cart. */
  lemma RemoveKeepsOrder(a: seq<OrderItem>, b: seq<OrderItem>, itemId: Id)
    ensures RemoveFromCart(a + b, itemId) == RemoveFromCart(a, itemId) + RemoveFromCart(b, itemId)
  {
    FilterConcat(a, b, KeepsOtherThan(itemId));
  }

  /** Removing the same id twice is removing it once. */
  lemma RemoveIdempotent(cart: seq<OrderItem>, itemId: Id)
    ensures RemoveFromCart(RemoveFromCart(cart, itemId), itemId) == RemoveFromCart(cart, itemId)
  {
    FilterIdempotent(cart, KeepsOtherThan(itemId));
  }

  /** Removing lines lowers the total by exactly the totals of the removed lines. */
  lemma {:induction false} RemoveTotal(cart: seq<OrderItem>, itemId: Id)
    ensures CartTotal(cart) == CartTotal(RemoveFromCart(cart, itemId)) + RemovedTotal(cart, itemId)
  {
    if |cart| > 0 {
      var c := cart[..|cart| - 1];
      var last := cart[|cart| - 1];
      RemoveTotal(c, itemId);
      if last.id != itemId {
        LinesTotalAppend(Filter(c, KeepsOtherThan(itemId)), last);
      } else {
        assert Filter(c, KeepsOtherThan(itemId)) + [] == Filter(c, KeepsOtherThan(itemId));
      }
    }
  }

  /** The sum of the totals of the lines carrying `itemId`. */
  function RemovedTotal(cart: seq<OrderItem>, itemId: Id): real {
    if |cart| == 0 then 0.0
    else RemovedTotal(cart[..|cart| - 1], itemId)
         + (if cart[|cart| - 1].id == itemId then cart[|cart| - 1].totalPrice else 0.0)
  }

  /** A line with a new quantity and its total recomputed from its unit price. */
  function Reprice(line: OrderItem, quantity: real): (r: OrderItem)
    ensures Priced(r)
  {
    line.(quantity := quantity, totalPrice := quantity * line.unitPrice)
  }

  /** `updateCartItemQuantity(newQuantity)` with the line being edited, if any. */
  function UpdateCartItemQuantity(cart: seq<OrderItem>, editing: Option<OrderItem>, quantity: real): (r: seq<OrderItem>)
    ensures editing.None? ==> r == cart
    ensures |r| == |cart|
    ensures editing.Some? ==>
              forall j :: 0 <= j < |cart| ==>
                if cart[j].id == editing.value.id then r[j] == Reprice(cart[j], quantity) else r[j] == cart[j]
    ensures AllPriced(cart) ==> AllPriced(r)
  {
    match editing
    case None => cart
    case Some(target) =>
      seq(|cart|, j requires 0 <= j < |cart| =>
        if cart[j].id == target.id then Reprice(cart[j], quantity) else cart[j])
  }

  /** When the edited id names exactly one line, editing its quantity moves the
      total by the change of that line's total. */
  lemma UpdateTotal(cart: seq<OrderItem>, target: OrderItem, quantity: real, k: nat)
    requires k < |cart| && cart[k].id == target.id
    requires forall j :: 0 <= j < |cart| && j != k ==> cart[j].id != target.id
    ensures UpdateCartItemQuantity(cart, Some(target), quantity) == cart[k := Reprice(cart[k], quantity)]
    ensures CartTotal(UpdateCartItemQuantity(cart, Some(target), quantity))
              == CartTotal(cart) - cart[k].totalPrice + quantity * cart[k].unitPrice
  {
    LinesTotalUpdate(cart, k, Reprice(cart[k], quantity));
  }
}
