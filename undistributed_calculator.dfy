/** The undistributed-funds calculator: a state record filled from
  * `calculateUndistributedAllowance`, with the number of whole weeks of allowance it represents. */
module UndistributedCalculator {
  import opened Wrappers
  import opened Schema
  import DistributionActions

  /** The value of `Math.floor(amount / allowance)` in floating point: a whole number, or, for a
    * zero allowance, NaN or an infinity. */
  datatype Weeks = Whole(n: int) | NaN | PositiveInfinity | NegativeInfinity

  /** `weeksPending`. */
  function WeeksPending(amount: real, allowance: real): (w: Weeks)
    ensures allowance != 0.0 ==> w.Whole? && w.n as real <= amount / allowance < w.n as real + 1.0
    ensures allowance == 0.0 ==> (w == NaN <==> amount == 0.0)
    ensures allowance == 0.0 && amount > 0.0 ==> w == PositiveInfinity
    ensures allowance == 0.0 && amount < 0.0 ==> w == NegativeInfinity
  {
    if allowance != 0.0 then Whole((amount / allowance).Floor)
    else if amount == 0.0 then NaN
    else if amount > 0.0 then PositiveInfinity
    else NegativeInfinity
  }

  /** With a positive allowance, the weeks pending are whole weeks that fit in the amount; when
    * nothing distributed is negative, they are at most the weeks elapsed since the recipient
    * was created. */
  lemma WeeksPendingBounds(u: DistributionActions.Undistributed)
    requires u.weeklyAllowance > 0.0
    requires u.undistributedAmount >= 0.0
    requires u.totalAllowanceOwed == u.weeksSinceCreated as real * u.weeklyAllowance
    requires u.undistributedAmount == 0.0 || u.undistributedAmount == u.totalAllowanceOwed - u.totalDistributed
    requires u.totalDistributed >= 0.0
    ensures var w := WeeksPending(u.undistributedAmount, u.weeklyAllowance);
      && w.Whole? && w.n >= 0
      && w.n as real * u.weeklyAllowance <= u.undistributedAmount
      && (u.weeksSinceCreated >= 0 ==> w.n <= u.weeksSinceCreated)
  {
    var a := u.weeklyAllowance;
    var q := u.undistributedAmount / a;
    var w := WeeksPending(u.undistributedAmount, a);
    assert q >= 0.0;
    assert q * a == u.undistributedAmount;
    assert w.n as real * a <= q * a by {
      MultiplyMonotone(w.n as real, q, a);
    }
    if u.weeksSinceCreated >= 0 && u.undistributedAmount > 0.0 {
      assert u.undistributedAmount <= u.weeksSinceCreated as real * a;
      assert q <= u.weeksSinceCreated as real by {
        if q > u.weeksSinceCreated as real {
          MultiplyMonotone(u.weeksSinceCreated as real, q, a);
          MultiplyStrict(u.weeksSinceCreated as real, q, a);
        }
      }
    }
  }

  lemma MultiplyMonotone(x: real, y: real, a: real)
    requires a > 0.0 && x <= y
    ensures x * a <= y * a
  {
  }

  lemma MultiplyStrict(x: real, y: real, a: real)
    requires a > 0.0 && x < y
    ensures x * a < y * a
  {
  }

  /** The state record the calculator hands to its children. */
  class Calculator {
    var undistributedAmount: real
    var weeksPending: Weeks
    var isLoading: bool
    var error: Option<string>

    /** Loading, with zero amount, zero weeks and no error. */
    constructor ()
      ensures undistributedAmount == 0.0 && weeksPending == Whole(0) && isLoading && error.None?
    {
      undistributedAmount := 0.0;
      weeksPending := Whole(0);
      isLoading := true;
      error := None;
    }

    /** The start of a fetch: loading, no error, the previous figures kept. */
    method StartFetch()
      modifies this
      ensures isLoading && error.None?
      ensures undistributedAmount == old(undistributedAmount) && weeksPending == old(weeksPending)
    {
      isLoading := true;
      error := None;
    }

    /** The end of a fetch: the new figures, or the previous ones and the error's message. */
    method FinishFetch(outcome: Result<DistributionActions.Undistributed, string>)
      modifies this
      ensures !isLoading
      ensures outcome.Success? ==>
        && undistributedAmount == outcome.value.undistributedAmount
        && weeksPending == WeeksPending(outcome.value.undistributedAmount, outcome.value.weeklyAllowance)
        && error.None?
      ensures outcome.Failure? ==>
        && undistributedAmount == old(undistributedAmount) && weeksPending == old(weeksPending)
        && error == Some(outcome.error)
    {
      if outcome.Success? {
        undistributedAmount := outcome.value.undistributedAmount;
        weeksPending := WeeksPending(outcome.value.undistributedAmount, outcome.value.weeklyAllowance);
        error := None;
      } else {
        error := Some(outcome.error);
      }
      isLoading := false;
    }
  }
}
