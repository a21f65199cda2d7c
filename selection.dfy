/**
 * The numbered-menu selection shared by the add, start and stop commands: an
 * answer is accepted when `choice.isdigit()` holds and `int(choice)` lies in
 * 1..count, and the item at `int(choice) - 1` is then taken.
 */
module Selection {
  import opened Wrappers

  predicate IsDigit(c: char)
  {
    '0' <= c <= '9'
  }

  /** `isdigit()`: non-empty and made of digits only. */
  predicate IsDigits(s: string)
  {
    |s| > 0 && forall i :: 0 <= i < |s| ==> IsDigit(s[i])
  }

  /** The decimal value of a string of digits, as `int()` reads it (leading zeros allowed). */
  function DigitsValue(s: string): nat
    requires forall i :: 0 <= i < |s| ==> IsDigit(s[i])
  {
    if s == [] then 0
    else
      assert IsDigit(s[|s| - 1]);
      DigitsValue(s[..|s| - 1]) * 10 + (s[|s| - 1] as int - '0' as int)
  }

  /** Whether an answer selects one of `count` numbered items. */
  predicate Accepts(choice: string, count: nat)
  {
    IsDigits(choice) && 1 <= DigitsValue(choice) <= count
  }

  /** The zero-based index an answer selects, or None when it is re-prompted. */
  function SelectedIndex(choice: string, count: nat): (r: Option<nat>)
    ensures r.Some? <==> IsDigits(choice) && 1 <= DigitsValue(choice) <= count
    ensures r.Some? ==> r.value < count && r.value + 1 == DigitsValue(choice)
  {
    if Accepts(choice, count) then Some(DigitsValue(choice) - 1) else None
  }

  /** The canonical decimal spelling of a number, as the menu prints it. */
  function Decimal(n: nat): (s: string)
    ensures IsDigits(s)
    decreases n
  {
    var last := [('0' as int + n % 10) as char];
    if n < 10 then last else Decimal(n / 10) + last
  }

  lemma {:induction false} DecimalValue(n: nat)
    ensures DigitsValue(Decimal(n)) == n
    decreases n
  {
    var s := Decimal(n);
    if n >= 10 {
      DecimalValue(n / 10);
      assert s[..|s| - 1] == Decimal(n / 10);
    }
  }

  /** Every number the menu lists, typed back, selects the item printed beside it. */
  lemma ListedNumberSelectsItsItem(k: nat, count: nat)
    requires 1 <= k <= count
    ensures SelectedIndex(Decimal(k), count) == Some(k - 1)
  {
    DecimalValue(k);
  }

  /** The index selected by the first accepted answer, or None when every answer is refused. */
  function FirstAccepted(answers: seq<string>, count: nat): (r: Option<nat>)
    ensures r.None? <==> forall j :: 0 <= j < |answers| ==> !Accepts(answers[j], count)
    ensures r.Some? ==> r.value < count
  {
    if answers == [] then None
    else if Accepts(answers[0], count) then SelectedIndex(answers[0], count)
    else
      var r := FirstAccepted(answers[1..], count);
      assert forall j :: 1 <= j < |answers| ==> answers[j] == answers[1..][j - 1];
      r
  }

  /**
   * The prompt loop `while True: choice = input(...); if accepted: break`,
   * fed the given answers in turn. Returns the selected index and how many
   * answers were read; None when every answer was refused, where the program
   * would go on prompting.
   */
  method Prompt(answers: seq<string>, count: nat) returns (pick: Option<nat>, read: nat)
    ensures pick == FirstAccepted(answers, count)
    ensures read <= |answers|
    ensures forall j :: 0 <= j < read - 1 ==> !Accepts(answers[j], count)
    ensures pick.Some? ==> 0 < read && pick == SelectedIndex(answers[read - 1], count)
    ensures pick.None? ==> read == |answers|
  {
    pick, read := None, 0;
    while read < |answers|
      invariant read <= |answers|
      invariant forall j :: 0 <= j < read ==> !Accepts(answers[j], count)
      invariant FirstAccepted(answers, count) == FirstAccepted(answers[read..], count)
    {
      var choice := answers[read];
      assert answers[read..][1..] == answers[read + 1..];
      read := read + 1;
      if IsDigits(choice) && 1 <= DigitsValue(choice) <= count {
        pick := Some(DigitsValue(choice) - 1);
        return;
      }
    }
  }
}
