/** The distribute-funds modal: an amount available to distribute, a four-way split of it edited
  * one category at a time, and the submit that hands the split to the page. */
module DistributeModal {
  import opened Wrappers
  import opened Schema
  import DistributionActions

  /** `Math.max(0, Math.min(amount, limit))`. */
  function Clamp(amount: real, limit: real): (r: real)
    ensures r >= 0.0
    ensures r <= limit || r == 0.0
    ensures 0.0 <= amount <= limit ==> r == amount
    ensures amount > limit && limit >= 0.0 ==> r == limit
    ensures amount < 0.0 ==> r == 0.0
  {
    var m := if amount < limit then amount else limit;
    if m > 0.0 then m else 0.0
  }

  /** The callbacks of the modal's props that a handler calls. */
  datatype Callback = OnClose

  /** The step of the per-category "−" and "+" buttons. */
  const Step: real := 0.25

  /** The modal's state. `allowance` is the recipient's weekly allowance. */
  class Modal {
    const allowance: real
    var undistributed: real
    var distribution: Amounts
    var date: int

    /** With a non-negative allowance, the available amount and every part of the split are
      * never negative. */
    ghost predicate Valid()
      reads this
    {
      allowance >= 0.0 ==> undistributed >= 0.0 && forall c :: distribution.Get(c) >= 0.0
    }

    /** `totalDistributed`. */
    function Total(): real
      reads this
    {
      distribution.Total()
    }

    /** `remaining`. */
    function Remaining(): real
      reads this
    {
      undistributed - Total()
    }

    /** The modal as it opens: three weeks of allowance available, nothing split, dated now.
      * There is no parameter for an amount computed elsewhere. */
    constructor (allowance: real, now: int)
      ensures Valid()
      ensures this.allowance == allowance
      ensures undistributed == allowance * 3.0 && distribution == NoAmounts && date == now
    {
      this.allowance := allowance;
      undistributed := allowance * 3.0;
      distribution := NoAmounts;
      date := now;
    }

    /** `handleDistribute(category, amount)`: the category takes the amount clamped to
      * [0, available]; the other three keep theirs. */
    method Distribute(c: Category, amount: real)
      requires Valid()
      modifies this
      ensures Valid()
      ensures distribution == old(distribution).With(c, Clamp(amount, undistributed))
      ensures undistributed == old(undistributed) && date == old(date)
    {
      distribution := distribution.With(c, Clamp(amount, undistributed));
    }

    /** The "−" button of a category: one step down, never below 0. */
    method StepDown(c: Category)
      requires Valid()
      modifies this
      ensures Valid()
      ensures distribution.Get(c) == Clamp(old(distribution).Get(c) - Step, undistributed)
      ensures forall d :: d != c ==> distribution.Get(d) == old(distribution).Get(d)
      ensures undistributed == old(undistributed) && date == old(date)
    {
      Distribute(c, distribution.Get(c) - Step);
    }

    /** The "+" button of a category: one step up, never above the available amount. */
    method StepUp(c: Category)
      requires Valid()
      modifies this
      ensures Valid()
      ensures distribution.Get(c) == Clamp(old(distribution).Get(c) + Step, undistributed)
      ensures forall d :: d != c ==> distribution.Get(d) == old(distribution).Get(d)
      ensures undistributed == old(undistributed) && date == old(date)
    {
      Distribute(c, distribution.Get(c) + Step);
    }

    /** "−" is disabled at 0; "+" is disabled when less than one step remains. */
    predicate StepDownDisabled(c: Category)
      reads this
    {
      distribution.Get(c) <= 0.0
    }

    predicate StepUpDisabled()
      reads this
    {
      Remaining() < Step
    }

    /** `handleQuickDistribute()`: a quarter of the available amount in every category. */
    method QuickDistribute()
      requires Valid()
      modifies this
      ensures Valid()
      ensures forall c :: distribution.Get(c) == undistributed / 4.0
      ensures Total() == undistributed && Remaining() == 0.0
      ensures undistributed == old(undistributed) && date == old(date)
    {
      var equal := undistributed / 4.0;
      distribution := Amounts(equal, equal, equal, equal);
    }

    /** `handleSubmit()`: with something split, hands the split and date to the page, lowers the
      * available amount by the total (not below 0) and clears the split; otherwise does nothing. */
    method Submit() returns (emitted: Option<(Amounts, int)>)
      requires Valid()
      modifies this
      ensures Valid()
      ensures old(Total()) > 0.0 ==>
        && emitted == Some((old(distribution), old(date)))
        && undistributed == (if old(undistributed) - old(Total()) > 0.0 then old(undistributed) - old(Total()) else 0.0)
        && distribution == NoAmounts
      ensures old(Total()) <= 0.0 ==>
        emitted.None? && undistributed == old(undistributed) && distribution == old(distribution)
      ensures date == old(date)
    {
      var total := Total();
      if total > 0.0 {
        emitted := Some((distribution, date));
        undistributed := if undistributed - total > 0.0 then undistributed - total else 0.0;
        distribution := NoAmounts;
      } else {
        emitted := None;
      }
    }

    /** `handleReset()`: clears the split, keeps the available amount. */
    method Reset()
      requires Valid()
      modifies this
      ensures Valid()
      ensures distribution == NoAmounts && undistributed == old(undistributed) && date == old(date)
    {
      distribution := NoAmounts;
    }

    /** `handleClose()`: clears the split, dates it now, seeds three weeks of allowance again and
      * calls `onClose`. */
    method Close(now: int) returns (calls: seq<Callback>)
      requires Valid()
      modifies this
      ensures Valid()
      ensures distribution == NoAmounts && date == now && undistributed == allowance * 3.0
      ensures calls == [OnClose]
    {
      distribution := NoAmounts;
      date := now;
      undistributed := allowance * 3.0;
      calls := [OnClose];
    }

    /** The "−" control of the available amount: one week less, not below 0. */
    method DecreaseAvailable()
      requires Valid()
      modifies this
      ensures Valid()
      ensures undistributed == if old(undistributed) - allowance > 0.0 then old(undistributed) - allowance else 0.0
      ensures distribution == old(distribution) && date == old(date)
    {
      undistributed := if undistributed - allowance > 0.0 then undistributed - allowance else 0.0;
    }

    /** The "+" control of the available amount: exactly one week more. */
    method IncreaseAvailable()
      requires Valid()
      modifies this
      ensures Valid()
      ensures undistributed == old(undistributed) + allowance
      ensures distribution == old(distribution) && date == old(date)
    {
      undistributed := undistributed + allowance;
    }

    /** Typing an available amount: negative input is taken as 0. */
    method SetAvailable(typed: real)
      requires Valid()
      modifies this
      ensures Valid()
      ensures undistributed == if typed > 0.0 then typed else 0.0
      ensures distribution == old(distribution) && date == old(date)
    {
      undistributed := if typed > 0.0 then typed else 0.0;
    }

    /** Picking a date in the calendar. */
    method SelectDate(d: int)
      requires Valid()
      modifies this
      ensures Valid()
      ensures date == d && distribution == old(distribution) && undistributed == old(undistributed)
    {
      date := d;
    }
  }

  /** Each part is clamped on its own, so the split can exceed the available amount: two
    * categories of 10 against 10 available leave -10 remaining. */
  lemma RemainingCanBeNegative()
    ensures var d := NoAmounts.With(Give, Clamp(10.0, 10.0)).With(Spend, Clamp(10.0, 10.0));
      d.Total() == 20.0 && 10.0 - d.Total() == -10.0
  {
  }

  /** A split the modal submits, in a valid state, passes the amount checks of the server's
    * `distributeAllowance`. */
  lemma SubmittedSplitPassesAmountChecks(
    recipients: seq<Recipient>, user: UserId, rid: RecipientId, split: Amounts, date: int, notes: Option<string>)
    requires Owns(recipients, user, rid, true)
    requires split.Total() > 0.0
    requires forall c :: split.Get(c) >= 0.0
    ensures DistributionActions.DistributeCheck(recipients, Some(user), DistributionActions.DistributionData(rid, date, split, notes)).None?
  {
  }
}
