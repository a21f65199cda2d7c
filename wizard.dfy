/**
 * The command loop of `wizard_interface`: each round handles one command; a
 * keyboard interrupt ends the loop, and every other exception adds to a retry
 * count that is never reset, ending the loop once it exceeds 5.
 */
module Wizard {
  import opened Wrappers

  /** How one round of the loop ends. */
  datatype Round = Handled | Failed | Interrupted

  /** Why the loop ended. */
  datatype Exit = UserInterrupt | TooManyRetries

  /** The number of failed rounds among the given ones. */
  function Failures(rounds: seq<Round>): nat
  {
    multiset(rounds)[Failed]
  }

  /** The retry limit: the loop ends once more than this many rounds have failed. */
  const MaxRetries: nat := 5

  /**
   * Runs the loop over the given rounds. Returns how it ended, or None when
   * the rounds ran out with the loop still going, and how many rounds it ran.
   */
  method Run(rounds: seq<Round>) returns (exit: Option<Exit>, ran: nat)
    ensures ran <= |rounds|
    ensures forall j :: 0 <= j < ran - 1 ==> rounds[j] != Interrupted
    ensures exit == Some(UserInterrupt) ==> 0 < ran && rounds[ran - 1] == Interrupted && Failures(rounds[..ran]) <= MaxRetries
    ensures exit == Some(TooManyRetries) ==> 0 < ran && rounds[ran - 1] == Failed && Failures(rounds[..ran]) == MaxRetries + 1
    ensures exit.None? ==> ran == |rounds| && Interrupted !in rounds && Failures(rounds) <= MaxRetries
  {
    var retryCount := 0;
    ran := 0;
    while ran < |rounds|
      invariant ran <= |rounds|
      invariant retryCount == Failures(rounds[..ran]) <= MaxRetries
      invariant Interrupted !in rounds[..ran]
    {
      var round := rounds[ran];
      assert rounds[..ran + 1] == rounds[..ran] + [round];
      ran := ran + 1;
      match round
      case Handled =>
      case Interrupted =>
        return Some(UserInterrupt), ran;
      case Failed =>
        retryCount := retryCount + 1;
        if retryCount > MaxRetries {
          return Some(TooManyRetries), ran;
        }
    }
    assert rounds[..ran] == rounds;
    return None, ran;
  }
}
