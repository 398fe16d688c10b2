/** The `Retry` edge wrapper: up to `retries + 1` attempts, the first success wins, and
    when every attempt fails the last exception is raised again. */
module Retrying {
  import opened Values
  import opened Text

  /** An attempt that `except Exception` catches (and so may be retried). */
  predicate Caught(o: Outcome)
  {
    o.Raised? && IsException(o.exc)
  }

  /** The wrapped call: `attempt(n)` is what the `n`-th call of the edge function (counting
      from 0) returns or raises. `calls` is how many calls were made. A negative `retries`
      makes no call and returns None. */
  method Retry(attempt: nat -> Outcome, retries: int) returns (result: Outcome, calls: nat)
    ensures retries < 0 ==> calls == 0 && result == Returned(NoneValue)
    ensures retries >= 0 ==> 1 <= calls <= retries + 1 && result == attempt(calls - 1)
    ensures forall n :: 0 <= n < calls - 1 ==> Caught(attempt(n))
    ensures retries >= 0 && calls < retries + 1 ==> !Caught(attempt(calls - 1))
  {
    var exception: Option<Exc> := None;
    var n := 0;
    while n < retries + 1
      invariant 0 <= n && (retries >= 0 ==> n <= retries + 1) && (retries < 0 ==> n == 0)
      invariant forall k :: 0 <= k < n ==> Caught(attempt(k))
      invariant n == 0 ==> exception.None?
      invariant n > 0 ==> exception == Some(attempt(n - 1).exc)
    {
      var o := attempt(n);
      if !Caught(o) {
        return o, n + 1;
      }
      exception := Some(o.exc);
      n := n + 1;
    }
    if exception.Some? {
      return Raised(exception.value), n;
    }
    return Returned(NoneValue), 0;
  }

  /** Every attempt failing: exactly `retries + 1` calls, and the last exception raised. */
  method RetryAllFail(attempt: nat -> Outcome, retries: nat) returns (result: Outcome, calls: nat)
    requires forall n :: 0 <= n <= retries ==> Caught(attempt(n))
    ensures calls == retries + 1 && result == attempt(retries)
  {
    result, calls := Retry(attempt, retries);
  }

  /** The first success at attempt `k` is returned, after exactly `k + 1` calls. */
  method RetryFirstSuccess(attempt: nat -> Outcome, retries: nat, k: nat) returns (result: Outcome, calls: nat)
    requires k <= retries && attempt(k).Returned? && forall n :: 0 <= n < k ==> Caught(attempt(n))
    ensures calls == k + 1 && result == attempt(k)
  {
    result, calls := Retry(attempt, retries);
  }

  /** The wrapper's `__name__`: the wrapped name and the count, in `Retry(...)`. */
  function RetryName(funcName: string, retries: int): (r: string)
    ensures "Retry(" + funcName + ", " <= r && r[|r| - 1] == ')'
  {
    "Retry(" + funcName + ", " + IntToString(retries) + ")"
  }

  /** The wrapper's name records the retry count: two wrappers of the same function
      with different counts have different names. */
  lemma RetryNameDeterminesRetries(funcName: string, i: int, j: int)
    requires RetryName(funcName, i) == RetryName(funcName, j)
    ensures i == j
  {
    var prefix := "Retry(" + funcName + ", ";
    var a, b := IntToString(i), IntToString(j);
    assert RetryName(funcName, i) == prefix + (a + ")");
    assert RetryName(funcName, j) == prefix + (b + ")");
    assert (prefix + (a + ")"))[|prefix|..] == a + ")";
    assert (prefix + (b + ")"))[|prefix|..] == b + ")";
    assert |a| == |b|;
    assert a == (a + ")")[..|a|] && b == (b + ")")[..|b|];
    IntToStringInjective(i, j);
  }
}
