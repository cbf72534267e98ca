/**
 * A validator written as a chain of early returns is a list of gates read in
 * order: each gate either raises its error or lets the token through, and the
 * chain reports the error of the first gate that raises one.
 */
module Gates {
  import opened Wrappers

  /** The error of the first gate that raises one, or `None` when every gate passes. */
  function FirstFailure<E>(gates: seq<Option<E>>): (r: Option<E>)
    ensures r.None? <==> forall i :: 0 <= i < |gates| ==> gates[i].None?
    ensures r.Some? ==> r in gates
  {
    if |gates| == 0 then None
    else if gates[0].Some? then gates[0]
    else FirstFailure(gates[1..])
  }

  /** Fail-fast: when gate `i` raises and no gate before it does, its error is the one reported. */
  lemma {:induction false} FirstFailureIsEarliest<E>(gates: seq<Option<E>>, i: nat)
    requires i < |gates| && gates[i].Some?
    requires forall k :: 0 <= k < i ==> gates[k].None?
    ensures FirstFailure(gates) == gates[i]
  {
    if i > 0 {
      assert gates[0].None?;
      FirstFailureIsEarliest(gates[1..], i - 1);
    }
  }

  /** A chain made of two chains fails where the first fails, and otherwise where the second does. */
  lemma {:induction false} FirstFailureAppend<E>(first: seq<Option<E>>, second: seq<Option<E>>)
    ensures FirstFailure(first + second)
         == if FirstFailure(first).Some? then FirstFailure(first) else FirstFailure(second)
  {
    if |first| == 0 {
      assert first + second == second;
    } else {
      assert (first + second)[0] == first[0];
      assert (first + second)[1..] == first[1..] + second;
      FirstFailureAppend(first[1..], second);
    }
  }
}
