/** The edit-quantity dialog of components/EditQuantityModal.tsx: kg lines
    are edited in whole grams and converted back to kg on confirm; other
    lines are edited as plain counts. */
module QuantityEntry {
  import opened Wrappers
  import opened Domain
  import opened Keypad
  import opened Cart

  /** The buffer the dialog opens with: `(q * 1000).toFixed(0)` grams for a kg
      line, `q.toString()` otherwise. */
  function OpenValue(item: OrderItem): (r: string)
    ensures item.unit == Kg && item.quantity >= 0.0 ==>
              ParseNumber(r) == Some(RoundHalfUp(item.quantity * 1000.0) as real)
    ensures item.unit != Kg && item.quantity == item.quantity.Floor as real ==>
              ParseNumber(r) == Some(item.quantity)
  {
    if item.unit == Kg then ToFixed0(item.quantity * 1000.0)
    else
      if item.quantity == item.quantity.Floor as real then
        WholeNumberRoundTrip(item.quantity);
        NumberToString(item.quantity)
      else NumberToString(item.quantity)
  }

  /** `handleKeyPress(key)`: the dot is ignored, and a key is appended only
      while the buffer has at most 5 characters. */
  function KeyPress(v: string, key: Key): (r: string)
    ensures key == '.' || |v| > 5 ==> r == v
    ensures key != '.' && |v| <= 5 ==> r == v + [key]
    ensures CountDots(r) == CountDots(v)
    ensures |v| <= 6 ==> |r| <= 6
  {
    if key == '.' || |v| > 5 then v
    else
      CountDotsAppend(v, key);
      v + [key]
  }

  /** `handleConfirm`: a positive reading is passed on, divided by 1000 for a kg
      line; anything else passes nothing and keeps the dialog open. */
  function Confirm(item: OrderItem, v: string): (r: Option<real>)
    ensures r.Some? <==> ParsesPositive(v)
    ensures r.Some? ==> r.value > 0.0
    ensures r.Some? && item.unit == Kg ==> r.value * 1000.0 == ParseNumber(v).value
    ensures r.Some? && item.unit != Kg ==> r.value == ParseNumber(v).value
  {
    match ParseNumber(v)
    case Some(raw) =>
      if raw > 0.0 then Some(if item.unit == Kg then raw / 1000.0 else raw) else None
    case None => None
  }

  /** Opening the dialog on a kg line holding a whole number of grams and
      confirming at once gives back the line's quantity. */
  lemma KgRoundTrip(item: OrderItem, grams: nat)
    requires item.unit == Kg && grams > 0 && item.quantity * 1000.0 == grams as real
    ensures Confirm(item, OpenValue(item)) == Some(item.quantity)
  {
    assert item.quantity >= 0.0;
    assert RoundHalfUp(item.quantity * 1000.0) == grams;
  }

  /** The same for a count line holding a positive whole number. */
  lemma CountRoundTrip(item: OrderItem)
    requires item.unit != Kg && item.quantity >= 1.0 && item.quantity == item.quantity.Floor as real
    ensures Confirm(item, OpenValue(item)) == Some(item.quantity)
  {
  }

  /** Typing `g` grams for a kg line and confirming rewrites that line to
      g/1000 kg, priced at its snapshotted unit price per kg. */
  lemma EditKgLine(cart: seq<OrderItem>, k: nat, g: nat)
    requires k < |cart| && cart[k].unit == Kg && g > 0
    ensures var q := Confirm(cart[k], NatToString(g));
            && q == Some(g as real / 1000.0)
            && var r := UpdateCartItemQuantity(cart, Some(cart[k]), q.value);
               r[k].quantity == g as real / 1000.0 && r[k].totalPrice == g as real / 1000.0 * cart[k].unitPrice
  {
    ParseNatString(g);
  }
}
