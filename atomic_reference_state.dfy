/**
 * AtomicReferenceState: a single-value holder whose only writers are `Set`
 * and `CompareAndSet`. Comparison is by value equality. Mutual exclusion is
 * not modelled: each call is one atomic step.
 */
module Atomic {

  /** The outcome of one compare-and-set on a holder whose value is `prior`:
      whether it succeeded, and the value held afterwards. */
  function CompareAndSetResult<T(==)>(prior: T, expected: T, newValue: T): (r: (bool, T))
    ensures r.0 <==> prior == expected
    ensures r.0 ==> r.1 == newValue
    ensures !r.0 ==> r.1 == prior
  {
    if prior == expected then (true, newValue) else (false, prior)
  }

  /** The exactly-once gate: with a != b, of two consecutive
      compare-and-set(a, b) the second never succeeds, whatever the first did. */
  lemma CompareAndSetExactlyOnce<T>(prior: T, a: T, b: T)
    requires a != b
    ensures !CompareAndSetResult(CompareAndSetResult(prior, a, b).1, a, b).0
    ensures CompareAndSetResult(prior, a, b).0
            || CompareAndSetResult(CompareAndSetResult(prior, a, b).1, a, b).1 == prior
  {
    var (first, mid) := CompareAndSetResult(prior, a, b);
    if first {
      assert mid == b;
    } else {
      assert mid == prior;
    }
  }

  class AtomicReferenceState<T(==)> {
    var state: T

    constructor (initValue: T)
      ensures state == initValue
    {
      state := initValue;
    }

    method Set(value: T)
      modifies this
      ensures state == value
    {
      state := value;
    }

    method CompareAndSet(expected: T, newValue: T) returns (ok: bool)
      modifies this
      ensures ok <==> old(state) == expected
      ensures ok ==> state == newValue
      ensures !ok ==> state == old(state)
      ensures (ok, state) == CompareAndSetResult(old(state), expected, newValue)
    {
      if state == expected {
        state := newValue;
        ok := true;
      } else {
        ok := false;
      }
    }
  }

  /** Two consecutive compare-and-set(a, b) on one holder: at most the first
      succeeds, and the holder then holds b if either did. */
  method CompareAndSetTwice<T(==)>(cell: AtomicReferenceState<T>, a: T, b: T)
    returns (first: bool, second: bool)
    requires a != b
    modifies cell
    ensures first <==> old(cell.state) == a
    ensures !second
    ensures cell.state == if first then b else old(cell.state)
  {
    first := cell.CompareAndSet(a, b);
    second := cell.CompareAndSet(a, b);
  }
}
