/** The charitable-cause card: the figures it derives from a cause, which controls it offers,
  * and its give and complete dialogs. */
module CauseCard {
  import opened Wrappers
  import opened Schema
  import CausesActions

  /** The value of `Math.min((current / goal) * 100, 100)` in floating point: finite, or, for a
    * zero goal, positive infinity (which the minimum turns into 100), negative infinity, or NaN. */
  datatype Percent = Finite(value: real) | NegativeInfinity | NaN

  /** `progressPercentage`. */
  function Progress(current: real, goal: real): (p: Percent)
    ensures goal != 0.0 ==> p.Finite? && p.value <= 100.0
    ensures goal == 0.0 && current > 0.0 ==> p == Finite(100.0)
    ensures goal == 0.0 && current < 0.0 ==> p == NegativeInfinity
    ensures goal == 0.0 && current == 0.0 ==> p == NaN
  {
    if goal == 0.0 then
      (if current > 0.0 then Finite(100.0) else if current < 0.0 then NegativeInfinity else NaN)
    else
      var ratio := current / goal * 100.0;
      Finite(if ratio < 100.0 then ratio else 100.0)
  }

  /** `isGoalReached`: the progress is at least 100 (false for NaN and negative infinity). */
  predicate IsGoalReached(current: real, goal: real) {
    var p := Progress(current, goal);
    p.Finite? && p.value >= 100.0
  }

  /** The goal counts as reached exactly when enough is allocated: `current >= goal` for a
    * positive goal, any positive amount for a zero goal, and `current <= goal` for a negative one. */
  lemma GoalReachedIff(current: real, goal: real)
    ensures goal > 0.0 ==> (IsGoalReached(current, goal) <==> current >= goal)
    ensures goal == 0.0 ==> (IsGoalReached(current, goal) <==> current > 0.0)
    ensures goal < 0.0 ==> (IsGoalReached(current, goal) <==> current <= goal)
  {
    if goal != 0.0 {
      var q := current / goal;
      assert q * goal == current;
      assert IsGoalReached(current, goal) <==> q >= 1.0;
      assert (q - 1.0) * goal == current - goal;
      if goal > 0.0 {
        ProductSign(q - 1.0, goal);
      } else {
        ProductSign(q - 1.0, -goal);
      }
    }
  }

  lemma ProductSign(x: real, y: real)
    requires y > 0.0
    ensures x >= 0.0 ==> x * y >= 0.0
    ensures x < 0.0 ==> x * y < 0.0
  {
  }

  /** `remainingAmount`: what is left to allocate before the goal. */
  function Remaining(current: real, goal: real): (r: real)
    ensures r >= 0.0
    ensures r == 0.0 <==> current >= goal
    ensures r > 0.0 ==> current + r == goal
  {
    if goal - current > 0.0 then goal - current else 0.0
  }

  /** With a positive goal the card reports the goal reached exactly when nothing remains. */
  lemma ReachedIffNothingRemains(current: real, goal: real)
    requires goal > 0.0
    ensures IsGoalReached(current, goal) <==> Remaining(current, goal) == 0.0
  {
    GoalReachedIff(current, goal);
  }

  /** `isOverdue`: a due date that now is after. */
  predicate IsOverdue(due: Option<int>, now: int) {
    due.Some? && now > due.value
  }

  datatype Badge = Completed | Overdue | DueSoon | Active

  /** `getStatusBadge()`; `daysUntilDue` is null exactly when there is no due date. */
  function StatusBadge(isCompleted: bool, overdue: bool, daysUntilDue: Option<int>): (b: Badge)
    ensures b == Completed <==> isCompleted
    ensures b == Overdue <==> !isCompleted && overdue
    ensures b == DueSoon <==> !isCompleted && !overdue && daysUntilDue.Some? && daysUntilDue.value <= 7
  {
    if isCompleted then Completed
    else if overdue then Overdue
    else if daysUntilDue.Some? && daysUntilDue.value <= 7 then DueSoon
    else Active
  }

  /** A completed cause shows Completed whatever its dates, and an open cause with no due date
    * is never Overdue or Due Soon. */
  lemma BadgeIgnoresDatesWhenDone(overdue: bool, days: Option<int>, now: int)
    ensures StatusBadge(true, overdue, days) == Completed
    ensures StatusBadge(false, IsOverdue(None, now), None) == Active
  {
  }

  // ---------------------------------------------------------------------------------------------
  // Give controls

  /** The amount field of the give dialog: empty, or the number typed. */
  datatype AmountField = Blank | Number(amount: real)

  datatype AllocateDecision = RejectInvalid | RejectUnallocated | RejectRemaining | Submit(amount: real)

  /** The checks of `handleAllocateFunds`, in order: a valid positive amount, then the
    * unallocated funds, then the remaining goal. */
  function DecideAllocation(field: AmountField, unallocated: real, remaining: real): (d: AllocateDecision)
    ensures d.Submit? <==> field.Number? && 0.0 < field.amount <= unallocated && field.amount <= remaining
    ensures d.Submit? ==> d.amount == field.amount
    ensures (field.Blank? || field.amount <= 0.0) <==> d == RejectInvalid
    ensures field.Number? && field.amount > 0.0 && field.amount > unallocated ==> d == RejectUnallocated
  {
    if field.Blank? || field.amount <= 0.0 then RejectInvalid
    else if field.amount > unallocated then RejectUnallocated
    else if field.amount > remaining then RejectRemaining
    else Submit(field.amount)
  }

  /** An amount the card submits, with the card's unallocated figure taken from the balance
    * query, passes every check of the server's `allocateToCharity`. */
  lemma ApprovedAllocationPassesServer(
    recipients: seq<Recipient>, categories: seq<CategoryRow>, causes: seq<Cause>,
    user: UserId, causeId: RowId, field: AmountField)
    requires CausesActions.OwnedCauseIndex(recipients, causes, user, causeId).Some?
    requires var c := causes[CausesActions.OwnedCauseIndex(recipients, causes, user, causeId).value];
      var b := CausesActions.GetGiveCategoryBalance(recipients, categories, causes, Some(user), c.recipientId);
      && b.Success?
      && DecideAllocation(field, b.value.unallocated, Remaining(c.current, c.goal)).Submit?
    ensures CausesActions.AllocateCheck(recipients, categories, causes, Some(user), causeId, field.amount).None?
  {
  }

  /** What the card renders in place of the Give control. */
  datatype GiveControl = NoGive | SingleGive | SplitGive

  /** The Give control: shown for an open cause short of its goal while money is unallocated;
    * a single button at 0 allocated, a split button with a complete item above 0. */
  function GiveControlFor(c: Cause, unallocated: real): (g: GiveControl)
    ensures g != NoGive ==> !c.isCompleted && !IsGoalReached(c.current, c.goal)
    ensures g != NoGive ==> Remaining(c.current, c.goal) > 0.0 && unallocated > 0.0
    ensures g == SingleGive ==> c.current == 0.0
    ensures g == SplitGive ==> c.current > 0.0
    ensures && !c.isCompleted && !IsGoalReached(c.current, c.goal) && Remaining(c.current, c.goal) > 0.0
            && unallocated > 0.0 && c.current >= 0.0 ==>
      g != NoGive
  {
    if !c.isCompleted && !IsGoalReached(c.current, c.goal) && Remaining(c.current, c.goal) > 0.0 && unallocated > 0.0 then
      (if c.current == 0.0 then SingleGive else if c.current > 0.0 then SplitGive else NoGive)
    else NoGive
  }

  /** A cause driven below zero by a negative allocation shows no Give control at all. */
  lemma NegativeCurrentHidesGive(c: Cause, unallocated: real)
    requires c.current < 0.0
    ensures GiveControlFor(c, unallocated) == NoGive
  {
  }

  /** The dropdown and its complete item, and the prominent complete button, are disabled while
    * the Give balance is below the allocated amount. */
  predicate CompleteDisabled(availableBalance: real, current: real) {
    availableBalance < current
  }

  /** A complete action the card enables, with the card's available balance taken from the first
    * Give row, passes every check of the server's `completeDonation` for the allocated amount. */
  lemma EnabledCompletePassesServer(
    recipients: seq<Recipient>, categories: seq<CategoryRow>, causes: seq<Cause>, user: UserId, causeId: RowId)
    requires CausesActions.OwnedCauseIndex(recipients, causes, user, causeId).Some?
    requires var c := causes[CausesActions.OwnedCauseIndex(recipients, causes, user, causeId).value];
      var give := CausesActions.FirstGiveRow(categories, c.recipientId);
      !c.isCompleted && give.Some? && !CompleteDisabled(give.value.balance, c.current)
    ensures var c := causes[CausesActions.OwnedCauseIndex(recipients, causes, user, causeId).value];
      CausesActions.CompleteDonation(recipients, categories, causes, Some(user), causeId, c.current).Success?
  {
  }

  /** The prominent "Complete & Donate" button. */
  predicate CompleteButtonShown(c: Cause) {
    !c.isCompleted && IsGoalReached(c.current, c.goal) && c.current > 0.0
  }

  /** The card never offers both Give and the prominent complete button; for a positive goal
    * the complete button is shown exactly for an open cause whose goal is met. */
  lemma GiveAndCompleteExclusive(c: Cause, unallocated: real)
    ensures !(GiveControlFor(c, unallocated) != NoGive && CompleteButtonShown(c))
    ensures c.goal > 0.0 ==> (CompleteButtonShown(c) <==> !c.isCompleted && c.current >= c.goal)
  {
    GoalReachedIff(c.current, c.goal);
  }

  // ---------------------------------------------------------------------------------------------
  // Dialog state

  /** The card's state: its two dialogs, their busy flags, and the amount field. */
  class CardState {
    var showAllocateDialog: bool
    var isAllocating: bool
    var allocationAmount: AmountField
    var showMarkCompleteDialog: bool
    var isMarkingComplete: bool

    constructor ()
      ensures !showAllocateDialog && !isAllocating && allocationAmount == Blank
      ensures !showMarkCompleteDialog && !isMarkingComplete
    {
      showAllocateDialog := false;
      isAllocating := false;
      allocationAmount := Blank;
      showMarkCompleteDialog := false;
      isMarkingComplete := false;
    }

    /** The Cancel button of the give dialog. */
    method CancelAllocate()
      modifies this
      ensures !showAllocateDialog && allocationAmount == Blank
      ensures isAllocating == old(isAllocating) && showMarkCompleteDialog == old(showMarkCompleteDialog)
      ensures isMarkingComplete == old(isMarkingComplete)
    {
      showAllocateDialog := false;
      allocationAmount := Blank;
    }

    /** `handleAllocateFunds()`. `serverRejects` is the outcome of `allocateToCharity`. Returns
      * the amount sent to the server, if any, and whether `onUpdate` ran. */
    method AllocateFunds(unallocated: real, remaining: real, serverRejects: bool)
      returns (sent: Option<real>, updated: bool)
      modifies this
      ensures var d := DecideAllocation(old(allocationAmount), unallocated, remaining);
        && (sent.Some? <==> d.Submit?)
        && (sent.Some? ==> sent.value == d.amount && 0.0 < sent.value <= unallocated && sent.value <= remaining)
      ensures updated <==> sent.Some? && !serverRejects
      ensures updated ==> !showAllocateDialog && allocationAmount == Blank
      ensures !updated ==> showAllocateDialog == old(showAllocateDialog) && allocationAmount == old(allocationAmount)
      ensures isAllocating == (sent.None? && old(isAllocating))
      ensures showMarkCompleteDialog == old(showMarkCompleteDialog) && isMarkingComplete == old(isMarkingComplete)
    {
      var decision := DecideAllocation(allocationAmount, unallocated, remaining);
      if !decision.Submit? {
        return None, false;
      }
      isAllocating := true;
      sent := Some(decision.amount);
      if serverRejects {
        updated := false;
      } else {
        showAllocateDialog := false;
        allocationAmount := Blank;
        updated := true;
      }
      isAllocating := false;
    }

    /** `handleMarkComplete()`. The action it calls, `markCauseComplete`, is not exported by the
      * charitable-cause actions (they export `completeDonation`), so the call always throws: the
      * dialog stays open, `onUpdate` does not run, and the busy flag is cleared. */
    method MarkComplete() returns (updated: bool)
      modifies this
      ensures !updated
      ensures !isMarkingComplete
      ensures showMarkCompleteDialog == old(showMarkCompleteDialog)
      ensures showAllocateDialog == old(showAllocateDialog) && allocationAmount == old(allocationAmount)
      ensures isAllocating == old(isAllocating)
    {
      isMarkingComplete := true;
      updated := false;
      isMarkingComplete := false;
    }
  }
}
