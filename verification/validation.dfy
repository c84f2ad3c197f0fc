/** `validateGuesses` of `lib/utils/validation.ts`: a submission is four
    percentages that are whole numbers from 0 to 100 summing to 100. The
    checks run in a fixed order and the first failing one names the error.
    Percentages are exact reals. */
module Validation {
  import opened Seqs
  import opened Strings

  /** One `{ position, percent }` entry of a submission. */
  datatype Guess = Guess(position: int, percent: real)

  /** Why a submission is rejected; `WrongTotal` carries the total. */
  datatype Reason = WrongCount | WrongTotal(total: real) | NotPercent

  datatype Verdict = Valid | Invalid(reason: Reason)

  /** The percent of every guess, in order. */
  function PercentsOf(guesses: seq<Guess>): (ps: seq<real>)
    ensures |ps| == |guesses|
    ensures forall i :: 0 <= i < |ps| ==> ps[i] == guesses[i].percent
  {
    seq(|guesses|, i requires 0 <= i < |guesses| => guesses[i].percent)
  }

  /** `Number.isInteger(p)` and `0 <= p <= 100`. */
  predicate IsPercent(p: real) {
    0.0 <= p <= 100.0 && p.Floor as real == p
  }

  /** `validateGuesses(guesses)`. */
  function ValidateGuesses(guesses: seq<Guess>): (v: Verdict)
    ensures v.Valid? <==>
              && |guesses| == 4
              && SumReal(PercentsOf(guesses)) == 100.0
              && forall i :: 0 <= i < |guesses| ==> IsPercent(guesses[i].percent)
    ensures v == Invalid(WrongCount) <==> |guesses| != 4
    ensures v.Invalid? && v.reason.WrongTotal? <==>
              |guesses| == 4 && SumReal(PercentsOf(guesses)) != 100.0
    ensures v.Invalid? && v.reason.WrongTotal? ==> v.reason.total == SumReal(PercentsOf(guesses))
  {
    if |guesses| != 4 then Invalid(WrongCount)
    else
      var total := SumReal(PercentsOf(guesses));
      if total != 100.0 then Invalid(WrongTotal(total))
      else if exists i :: 0 <= i < |guesses| && !IsPercent(guesses[i].percent) then Invalid(NotPercent)
      else Valid
  }

  /** The error text; `show` is JavaScript's number-to-string conversion. */
  function Message(reason: Reason, show: real -> string): string {
    match reason
    case WrongCount => "Must have exactly 4 guesses"
    case WrongTotal(total) => "Percentages must sum to 100% (got " + show(total) + "%)"
    case NotPercent => "Each percentage must be an integer between 0 and 100"
  }

  lemma ContainsAt(s: string, pat: string, k: nat)
    requires OccursAt(s, pat, k)
    ensures Contains(s, pat)
  {
  }

  /** The count error mentions "exactly 4"; the total error mentions 100
      and shows the total it got. */
  lemma MessagesMention(total: real, show: real -> string)
    ensures Contains(Message(WrongCount, show), "exactly 4")
    ensures Contains(Message(WrongTotal(total), show), "100")
    ensures Contains(Message(WrongTotal(total), show), show(total))
  {
    var m := Message(WrongTotal(total), show);
    var prefix := "Percentages must sum to 100% (got ";
    assert Message(WrongCount, show)[10..19] == "exactly 4";
    ContainsAt(Message(WrongCount, show), "exactly 4", 10);
    assert m[24..27] == "100";
    ContainsAt(m, "100", 24);
    assert m[|prefix|..|prefix| + |show(total)|] == show(total);
    ContainsAt(m, show(total), |prefix|);
  }

  /** A negative entry or one above 100 is never accepted, whatever the
      others are. */
  lemma OutOfRangeRejected(guesses: seq<Guess>, i: nat)
    requires i < |guesses|
    requires guesses[i].percent < 0.0 || guesses[i].percent > 100.0
    ensures ValidateGuesses(guesses).Invalid?
  {
  }
}
