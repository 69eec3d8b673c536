/** The settlement dialog of components/PaymentModal.tsx: quick full
    payment, split payments typed on the keypad, and the completion signal. */
module Payment {
  import opened Wrappers
  import opened Domain
  import opened Keypad

  datatype Mode = ViewMode | EntryMode

  /** One recorded payment. */
  datatype Log = Log(via: PaymentMethod, amount: real)

  datatype PaymentState = PaymentState(paid: real, logs: seq<Log>, entry: string, mode: Mode)

  /** The completion the dialog signals (`onComplete('single' | 'split')`). */
  datatype Completion = Single | Split

  datatype Step = Step(state: PaymentState, signal: Option<Completion>)

  /** The state the dialog resets to whenever it opens on an order. */
  const Opened := PaymentState(0.0, [], "", ViewMode)

  /** The sum of the logged amounts. */
  function Logged(logs: seq<Log>): real {
    if |logs| == 0 then 0.0 else Logged(logs[..|logs| - 1]) + logs[|logs| - 1].amount
  }

  lemma LoggedAppend(logs: seq<Log>, entry: Log)
    ensures Logged(logs + [entry]) == Logged(logs) + entry.amount
  {
    assert (logs + [entry])[..|logs|] == logs;
  }

  /** `remaining = Math.max(0, total - paid)`. */
  function Remaining(total: real, paid: real): (r: real)
    ensures r >= 0.0
    ensures paid >= total ==> r == 0.0
    ensures paid <= total ==> paid + r == total
  {
    if total - paid > 0.0 then total - paid else 0.0
  }

  /** `handleAddPayment(method)` for an order of `total`. In view mode the
      whole remaining balance is paid at once; in entry mode the typed amount
      is paid if it parses to a positive number, completing once the paid sum
      is within 0.01 of the total. */
  function AddPayment(s: PaymentState, total: real, via: PaymentMethod): (r: Step)
    ensures s.mode == ViewMode ==>
              && r.state.logs == s.logs + [Log(via, Remaining(total, s.paid))]
              && r.state.paid == total && r.state.entry == s.entry && r.state.mode == ViewMode
              && r.signal == Some(Single)
    ensures s.mode == EntryMode && !ParsesPositive(s.entry) ==> r == Step(s, None)
    ensures s.mode == EntryMode && ParsesPositive(s.entry) ==>
              var amount := ParseNumber(s.entry).value;
              && r.state == PaymentState(s.paid + amount, s.logs + [Log(via, amount)], "", ViewMode)
              && (r.signal.Some? <==> s.paid + amount >= total - 0.01)
              && (r.signal.Some? ==> r.signal == Some(Split))
  {
    match s.mode
    case ViewMode =>
      Step(s.(logs := s.logs + [Log(via, Remaining(total, s.paid))], paid := total), Some(Single))
    case EntryMode =>
      match ParseNumber(s.entry)
      case Some(amount) =>
        if amount > 0.0 then
          var paid := s.paid + amount;
          Step(PaymentState(paid, s.logs + [Log(via, amount)], "", ViewMode),
               if paid >= total - 0.01 then Some(Split) else None)
        else Step(s, None)
      case None => Step(s, None)
  }

  /** `handleNumpadPress(key)`: a second dot is refused, anything else is
      appended. */
  function NumpadPress(s: PaymentState, key: Key): (r: PaymentState)
    ensures r.paid == s.paid && r.logs == s.logs && r.mode == s.mode
    ensures key == '.' && '.' in s.entry ==> r == s
    ensures !(key == '.' && '.' in s.entry) ==> r.entry == s.entry + [key]
    ensures CountDots(s.entry) <= 1 ==> CountDots(r.entry) <= 1
  {
    HasDotCount(s.entry);
    CountDotsAppend(s.entry, key);
    if key == '.' && '.' in s.entry then s
    else s.(entry := s.entry + [key])
  }

  /** The keypad's delete key on the entry. */
  function NumpadDelete(s: PaymentState): (r: PaymentState)
    ensures r.paid == s.paid && r.logs == s.logs && r.mode == s.mode
    ensures |s.entry| == 0 ==> r.entry == s.entry
    ensures |s.entry| > 0 ==> r.entry + [s.entry[|s.entry| - 1]] == s.entry
    ensures CountDots(r.entry) <= CountDots(s.entry)
  {
    s.(entry := Backspace(s.entry))
  }

  /** Every input the dialog reacts to. `Reset` is the reset effect, which
      runs when the dialog opens and again whenever the order object it shows
      changes while open (a realtime refresh of the order, for one), wiping a
      split payment in progress. */
  datatype Input = Pay(via: PaymentMethod) | Press(key: Key) | Erase | EnterSplit | Back | Reset

  function Apply(s: PaymentState, total: real, input: Input): PaymentState {
    match input
    case Pay(m) => AddPayment(s, total, m).state
    case Press(k) => NumpadPress(s, k)
    case Erase => NumpadDelete(s)
    case EnterSplit => s.(mode := EntryMode)
    case Back => s.(mode := ViewMode)
    case Reset => Opened
  }

  function Replay(s: PaymentState, total: real, inputs: seq<Input>): PaymentState
    decreases |inputs|
  {
    if |inputs| == 0 then s else Replay(Apply(s, total, inputs[0]), total, inputs[1..])
  }

  /** The paid sum is within the total before every input of the run (after
      the last input it may exceed it, as an overpaying split payment does). */
  predicate WithinTotal(s: PaymentState, total: real, inputs: seq<Input>)
    decreases |inputs|
  {
    |inputs| == 0 || (s.paid <= total && WithinTotal(Apply(s, total, inputs[0]), total, inputs[1..]))
  }

  /** One input keeps the ledger (logged sum equals the paid sum) as long as
      the paid sum does not exceed the total. */
  lemma ApplyKeepsLedger(s: PaymentState, total: real, input: Input)
    requires Logged(s.logs) == s.paid && s.paid <= total
    ensures var r := Apply(s, total, input); Logged(r.logs) == r.paid
  {
    match input
    case Pay(m) =>
      var r := AddPayment(s, total, m);
      if r.state.logs != s.logs {
        LoggedAppend(s.logs, r.state.logs[|s.logs|]);
        assert r.state.logs == s.logs + [r.state.logs[|s.logs|]];
      }
    case _ =>
  }

  /** Starting from a freshly opened dialog, and as long as the paid sum does
      not exceed the total, the logged amounts add up to the paid sum. */
  lemma {:induction false} LedgerBalances(s: PaymentState, total: real, inputs: seq<Input>)
    requires Logged(s.logs) == s.paid
    requires WithinTotal(s, total, inputs)
    ensures Logged(Replay(s, total, inputs).logs) == Replay(s, total, inputs).paid
    decreases |inputs|
  {
    if |inputs| > 0 {
      ApplyKeepsLedger(s, total, inputs[0]);
      LedgerBalances(Apply(s, total, inputs[0]), total, inputs[1..]);
    }
  }

  /** The opened dialog's ledger is balanced, so `LedgerBalances` applies from it. */
  lemma OpenedBalances(total: real, inputs: seq<Input>)
    requires WithinTotal(Opened, total, inputs)
    ensures Logged(Replay(Opened, total, inputs).logs) == Replay(Opened, total, inputs).paid
  {
    LedgerBalances(Opened, total, inputs);
  }
}
