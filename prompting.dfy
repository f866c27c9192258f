/** The console's re-prompting loops (`while True: ... continue ... break`)
    share one shape: each answer is examined by a round that either asks
    again or decides. The operator's answers are a finite sequence here;
    running out of answers stands for an operator who never decides. */
module Prompting {
  import opened Wrappers
  import opened Text

  /** What one round of a prompt does with an answer. */
  datatype Reply<T> = Again | Done(value: T)

  /** Ask until a round decides: the result is the first answer that
      decides, with its position, or nothing when every answer is
      answered with "again". */
  method AskUntilDone<A, T(==)>(answers: seq<A>, round: A -> Reply<T>) returns (r: Option<(nat, T)>)
    ensures r.None? <==> forall i :: 0 <= i < |answers| ==> round(answers[i]).Again?
    ensures r.Some? ==>
      && r.value.0 < |answers|
      && round(answers[r.value.0]) == Done(r.value.1)
      && forall i :: 0 <= i < r.value.0 ==> round(answers[i]).Again?
  {
    var i := 0;
    while i < |answers|
      invariant 0 <= i <= |answers|
      invariant forall j :: 0 <= j < i ==> round(answers[j]).Again?
    {
      var reply := round(answers[i]);
      if reply.Done? {
        return Some((i, reply.value));
      }
      i := i + 1;
    }
    return None;
  }

  /** A prompt offered with the choices "1".."n" (`choices=[str(i+1) ...]`)
      takes exactly those strings; the number an accepted answer names. */
  function ChoiceNumber(answer: string, n: nat): (r: Option<nat>)
    ensures r.Some? ==> 1 <= r.value <= n && Decimal(r.value) == answer
  {
    if IsDigits(answer) && 1 <= DigitsValue(answer) <= n && Decimal(DigitsValue(answer)) == answer
    then Some(DigitsValue(answer))
    else None
  }

  /** Every offered choice is accepted, and names its own number. */
  lemma ChoiceNumberAccepts(n: nat, k: nat)
    requires 1 <= k <= n
    ensures ChoiceNumber(Decimal(k), n) == Some(k)
  {
    DecimalRoundTrip(k);
  }
}
