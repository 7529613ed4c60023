/** Results of the encoded-column validator and its work budget. */
module Outcome {
  import opened Bytes

  /**
   Protocol refusals by cause, and the one resource refusal. The source's invariant error is absent: it never
   occurs.
   */
  datatype Error = Malformed | CyclicGraph | UnreachableNode | NotCanonical | ResourceLimit

  datatype Outcome<+T> = Ok(value: T) | Err(error: Error) {
    predicate IsFailure() { Err? }

    function PropagateFailure<U>(): Outcome<U>
      requires Err?
    {
      Err(error)
    }

    function Extract(): T
      requires Ok?
    {
      value
    }
  }

  /** An amount of work that is refused. */
  predicate Over(work: int, maximum: int) {
    work >= U64_LIMIT || work > maximum
  }

  /** Charges work against the limit. */
  function ClaimWork(work: nat, amount: nat, maximum: nat): Outcome<nat> {
    if Over(work + amount, maximum) then Err(ResourceLimit) else Ok(work + amount)
  }

  /** Adds to a canonical length that must stay within `u64`. */
  function AddLength(total: nat, amount: nat): Outcome<nat> {
    if total + amount >= U64_LIMIT then Err(ResourceLimit) else Ok(total + amount)
  }

  // ---------- What a run of charges amounts to ----------

  ghost function Sum(amounts: seq<nat>): nat {
    if amounts == [] then 0 else amounts[0] + Sum(amounts[1..])
  }

  /** Charges one after another, stopping at the first refusal. */
  ghost function ClaimAll(work: nat, amounts: seq<nat>, maximum: nat): Outcome<nat>
    decreases |amounts|
  {
    if amounts == [] then Ok(work)
    else
      var claimed :- ClaimWork(work, amounts[0], maximum);
      ClaimAll(claimed, amounts[1..], maximum)
  }

  ghost function AddAll(total: nat, amounts: seq<nat>): Outcome<nat>
    decreases |amounts|
  {
    if amounts == [] then Ok(total)
    else
      var added :- AddLength(total, amounts[0]);
      AddAll(added, amounts[1..])
  }

  /**
   Where charges fall makes no difference: a run of them is refused exactly when the whole sum is
   past the limit, wherever that is noticed, and otherwise charges exactly the sum.
   */
  lemma {:induction false} ClaimsAddUp(work: nat, amounts: seq<nat>, maximum: nat)
    requires !Over(work, maximum)
    ensures ClaimAll(work, amounts, maximum)
      == if Over(work + Sum(amounts), maximum) then Err(ResourceLimit) else Ok(work + Sum(amounts))
    decreases |amounts|
  {
    if amounts != [] && !Over(work + amounts[0], maximum) {
      ClaimsAddUp(work + amounts[0], amounts[1..], maximum);
    }
  }

  /** Likewise lengths: pieces are refused exactly when the whole exceeds 64 bits. */
  lemma {:induction false} LengthsAddUp(total: nat, amounts: seq<nat>)
    requires total < U64_LIMIT
    ensures AddAll(total, amounts)
      == if total + Sum(amounts) >= U64_LIMIT then Err(ResourceLimit) else Ok(total + Sum(amounts))
    decreases |amounts|
  {
    if amounts != [] && total + amounts[0] < U64_LIMIT {
      LengthsAddUp(total + amounts[0], amounts[1..]);
    }
  }
}
