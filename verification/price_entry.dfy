/** The custom-price dialog of components/CustomPriceModal.tsx: a price typed
    on the keypad, with at most one dot, no run of leading zeros and at most
    eight digits. */
module PriceEntry {
  import opened Wrappers
  import opened Keypad

  /** The buffer the dialog resets to whenever it opens. */
  const Opened: string := ""

  /** `price.replace('.', '')`: the text without its first dot. */
  function WithoutFirstDot(s: string): (r: string)
    ensures |r| == if '.' in s then |s| - 1 else |s|
  {
    if |s| == 0 then s
    else if s[0] == '.' then s[1..]
    else
      assert '.' in s <==> '.' in s[1..];
      [s[0]] + WithoutFirstDot(s[1..])
  }

  /** The number of digits of a buffer: its characters other than dots. */
  function DigitCount(s: string): int {
    |s| - CountDots(s)
  }

  /** What the dialog's key rules keep true of the buffer: at most one dot, at
      most eight digits, and a leading '0' only ever followed by the dot. */
  predicate WellFormed(p: string) {
    && CountDots(p) <= 1
    && DigitCount(p) <= 8
    && (|p| >= 2 && p[0] == '0' ==> p[1] == '.')
  }

  /** `handleKeyPress(key)`. */
  function KeyPress(p: string, key: Key): (r: string)
    ensures key == '.' && '.' in p ==> r == p
    ensures key == '.' && p == "" ==> r == "0."
    ensures key == '.' && p != "" && '.' !in p ==> r == p + "."
    ensures key != '.' && (p == "0" || p == "0.") ==> r == [key]
    ensures key != '.' && p != "0" && p != "0." && |WithoutFirstDot(p)| >= 8 ==> r == p
    ensures key != '.' && p != "0" && p != "0." && |WithoutFirstDot(p)| < 8 ==> r == p + [key]
    ensures WellFormed(p) ==> WellFormed(r)
  {
    HasDotCount(p);
    CountDotsAppend(p, key);
    if key == '.' then
      if '.' in p then p
      else if p == "" then "0."
      else p + "."
    else if p == "0" || p == "0." then [key]
    else if |WithoutFirstDot(p)| >= 8 then p
    else p + [key]
  }

  /** The delete key keeps the buffer well formed. */
  lemma DeleteKeepsWellFormed(p: string)
    requires WellFormed(p)
    ensures WellFormed(Backspace(p))
  {
    if |p| > 0 {
      CountDotsAppend(p[..|p| - 1], p[|p| - 1]);
      assert p == p[..|p| - 1] + [p[|p| - 1]];
    }
  }

  /** `handleConfirm`: a price that parses to a positive number is passed on
      unchanged; anything else passes nothing. */
  function Confirm(p: string): (r: Option<real>)
    ensures r.Some? <==> ParsesPositive(p)
    ensures r.Some? ==> r.value > 0.0 && ParseNumber(p) == Some(r.value)
  {
    match ParseNumber(p)
    case Some(v) => if v > 0.0 then Some(v) else None
    case None => None
  }

  /** Keys typed into the freshly opened dialog. */
  function TypeAll(p: string, keys: seq<Key>): string
    decreases |keys|
  {
    if |keys| == 0 then p else TypeAll(KeyPress(p, keys[0]), keys[1..])
  }

  /** Whatever is typed after opening, the buffer holds at most one dot, at
      most eight digits and never starts with two zeros. */
  lemma {:induction false} TypedPriceWellFormed(p: string, keys: seq<Key>)
    requires WellFormed(p)
    ensures WellFormed(TypeAll(p, keys))
    decreases |keys|
  {
    if |keys| > 0 {
      TypedPriceWellFormed(KeyPress(p, keys[0]), keys[1..]);
    }
  }
}
