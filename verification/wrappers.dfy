/** Option and Result, used for absent rows and for the errors the source returns, and counting in a range. */
module Wrappers {

  datatype Option<+T> = None | Some(value: T)

  /** A failure-compatible result: `:-` leaves the enclosing function on Err. */
  datatype Result<+T, +E> = Ok(value: T) | Err(error: E) {
    predicate IsFailure() {
      Err?
    }

    function PropagateFailure<U>(): (r: Result<U, E>)
      requires Err?
    {
      Err(error)
    }

    function Extract(): T
      requires Ok?
    {
      value
    }
  }

  /** A set of numbers from 1 to n has at most n elements. */
  lemma {:induction false} RangeBound(s: set<int>, n: nat)
    requires forall b :: b in s ==> 1 <= b <= n
    ensures |s| <= n
  {
    if n == 0 {
      assert forall b :: b !in s;
      assert s == {};
    } else {
      RangeBound(s - {n}, n - 1);
      assert n !in s ==> s - {n} == s;
    }
  }
}
