/** Absence and failure. */
module Wrappers {

  datatype Option<+T> = None | Some(value: T)

  datatype Result<+T, +E> = Ok(value: T) | Err(error: E) {
    predicate IsFailure() { Err? }

    function PropagateFailure<U>(): Result<U, E>
      requires Err?
    {
      Err(error)
    }

    function Extract(): T
      requires Ok?
    {
      value
    }
  }

  /** An index found in what follows `n` characters. */
  ghost function Later(r: Option<nat>, n: nat): Option<nat> { if r.Some? then Some(r.value + n) else None }

  lemma LaterTwice(r: Option<nat>, m: nat, n: nat)
    ensures Later(Later(r, m), n) == Later(r, m + n)
  {
  }

  /** What was read so far, and what is read next or its refusal. */
  function Before<T, E>(first: seq<T>, more: Result<seq<T>, E>): Result<seq<T>, E> {
    if more.Ok? then Ok(first + more.value) else more
  }

  lemma BeforeTwice<T, E>(a: seq<T>, b: seq<T>, more: Result<seq<T>, E>)
    ensures Before(a, Before(b, more)) == Before(a + b, more)
  {
    if more.Ok? { assert a + (b + more.value) == a + b + more.value; }
  }

  lemma BeforeNothing<T, E>(more: Result<seq<T>, E>)
    ensures Before([], more) == more
  {
    if more.Ok? { assert [] + more.value == more.value; }
  }

  lemma BeforeEnd<T, E>(first: seq<T>)
    ensures Before(first, Result<seq<T>, E>.Ok([])) == Ok(first)
  {
    assert first + [] == first;
  }
}
