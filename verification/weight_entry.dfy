/** The weighing dialog of components/WeightModal.tsx: the typed value is the
    weight in kg itself, and confirming adds a weighed line to the cart. */
module WeightEntry {
  import opened Wrappers
  import opened Domain
  import opened Keypad
  import opened Cart

  /** The buffer the dialog resets to whenever it opens. */
  const Opened: string := ""

  /** `handleKeyPress(key)`: a second dot is refused, and nothing is appended
      once the buffer is longer than 6 characters. */
  function KeyPress(v: string, key: Key): (r: string)
    ensures key == '.' && '.' in v ==> r == v
    ensures |v| > 6 ==> r == v
    ensures !(key == '.' && '.' in v) && |v| <= 6 ==> r == v + [key]
    ensures CountDots(v) <= 1 ==> CountDots(r) <= 1
    ensures |v| <= 7 ==> |r| <= 7
  {
    HasDotCount(v);
    CountDotsAppend(v, key);
    if key == '.' && '.' in v then v
    else if |v| > 6 then v
    else v + [key]
  }

  /** `handleConfirm`: a positive reading is passed on as the kg quantity
      itself; anything else passes nothing. */
  function Confirm(v: string): (r: Option<real>)
    ensures r.Some? <==> ParsesPositive(v)
    ensures r.Some? ==> r.value > 0.0 && ParseNumber(v) == Some(r.value)
  {
    match ParseNumber(v)
    case Some(w) => if w > 0.0 then Some(w) else None
    case None => None
  }

  /** The price preview: the reading times the price per kg, 0 for text that
      does not parse. */
  function Preview(v: string, product: Product): (r: real)
    ensures ParseNumber(v).None? ==> r == 0.0
    ensures Confirm(v).Some? ==> r == Confirm(v).value * product.price
  {
    match ParseNumber(v)
    case Some(w) => w * product.price
    case None => 0.0
  }

  /** Confirming a weight for a kg product appends one line to the cart whose
      quantity is the typed kg value and whose total is the previewed price;
      the earlier lines are untouched. */
  lemma WeighedLine(cart: seq<OrderItem>, product: Product, v: string, tempId: Id)
    requires product.unit == Kg && Confirm(v).Some?
    ensures var r := AddToCart(cart, product, Confirm(v).value, tempId);
            && |r| == |cart| + 1 && r[..|cart|] == cart
            && r[|cart|].quantity == Confirm(v).value
            && r[|cart|].productId == product.id
            && r[|cart|].totalPrice == Preview(v, product)
  {
    var r := AddToCart(cart, product, Confirm(v).value, tempId);
    assert r == cart + [NewLine(product, Confirm(v).value, tempId)];
  }

  /** Typing "250" weighs 250 kg, not 250 g: the dialog does no gram conversion. */
  lemma NoGramConversion()
    ensures Confirm("250") == Some(250.0)
  {
    ParseNatString(250);
    assert NatToString(250) == "250";
  }
}
