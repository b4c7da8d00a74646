/** The add-cause modal: a four-field form, its client-side checks and the cause it submits. */
module AddCauseModal {
  import opened Wrappers
  import opened Schema
  import Text
  import CausesActions

  const MissingFieldsAlert: string := "Please fill in all required fields"
  const NonPositiveGoalAlert: string := "Goal amount must be greater than zero"

  /** The callbacks the modal runs, in the order it runs them. */
  datatype Callback = OnClose | OnSuccess

  /** The four text fields of the form. */
  datatype FormField = NameField | DescriptionField | GoalField | DueDateField

  /** The cause `handleSubmit` sends: empty description and due date are left out. */
  function Payload(recipientId: RecipientId, name: string, description: string, goal: real, dueDate: string)
    : (d: CausesActions.NewCauseData)
    ensures d.recipientId == recipientId && d.name == name && d.goalAmount == goal
    ensures d.description.None? <==> description == ""
    ensures d.dueDate.None? <==> dueDate == ""
    ensures d.description.Some? ==> d.description.value == description
    ensures d.dueDate.Some? ==> d.dueDate.value == dueDate
  {
    CausesActions.NewCauseData(recipientId, name, Text.OrUndefined(description), goal, Text.OrUndefined(dueDate))
  }

  /** The row the server stores for a submitted form has a null description or due date exactly
    * when that field was left empty, and starts with nothing allocated. */
  lemma StoredCauseKeepsBlanksNull(
    id: RowId, recipientId: RecipientId, name: string, description: string, goal: real, dueDate: string, now: int)
    ensures var c := CausesActions.NewCause(id, Payload(recipientId, name, description, goal, dueDate), now);
      && (c.description.None? <==> description == "")
      && (c.dueDate.None? <==> dueDate == "")
      && c.name == name && c.goal == goal && c.current == 0.0
  {
  }

  /** The modal for one recipient: the form and the submitting flag. */
  class Modal {
    const recipientId: RecipientId
    var name: string
    var description: string
    var goalAmount: string
    var dueDate: string
    var isSubmitting: bool

    predicate FormCleared()
      reads this
    {
      name == "" && description == "" && goalAmount == "" && dueDate == ""
    }

    constructor (recipientId: RecipientId)
      ensures this.recipientId == recipientId && FormCleared() && !isSubmitting
    {
      this.recipientId := recipientId;
      name := "";
      description := "";
      goalAmount := "";
      dueDate := "";
      isSubmitting := false;
    }

    /** Typing in one field. */
    method SetField(f: FormField, value: string)
      modifies this
      ensures name == (if f == NameField then value else old(name))
      ensures description == (if f == DescriptionField then value else old(description))
      ensures goalAmount == (if f == GoalField then value else old(goalAmount))
      ensures dueDate == (if f == DueDateField then value else old(dueDate))
      ensures isSubmitting == old(isSubmitting)
    {
      match f {
        case NameField => name := value;
        case DescriptionField => description := value;
        case GoalField => goalAmount := value;
        case DueDateField => dueDate := value;
      }
    }

    /** `handleSubmit()`. `parsedGoal` is `parseFloat` of the goal field and `failure` the message
      * `createCharitableCause` throws, if it does. Returns the cause sent, the alert shown and the
      * callbacks run. */
    method Submit(parsedGoal: real, failure: Option<string>)
      returns (sent: Option<CausesActions.NewCauseData>, alert: Option<string>, calls: seq<Callback>)
      modifies this
      ensures (old(name) == "" || old(goalAmount) == "") ==> sent.None? && alert == Some(MissingFieldsAlert)
      ensures old(name) != "" && old(goalAmount) != "" && parsedGoal <= 0.0 ==>
        sent.None? && alert == Some(NonPositiveGoalAlert)
      ensures sent.Some? <==> old(name) != "" && old(goalAmount) != "" && parsedGoal > 0.0
      ensures sent.Some? ==> sent.value == Payload(recipientId, old(name), old(description), parsedGoal, old(dueDate))
      ensures sent.Some? && failure.None? ==> FormCleared() && alert.None? && calls == [OnClose, OnSuccess]
      ensures sent.Some? && failure.Some? ==> alert == failure && calls == []
      ensures sent.None? || failure.Some? ==>
        && calls == []
        && name == old(name) && description == old(description)
        && goalAmount == old(goalAmount) && dueDate == old(dueDate)
      ensures sent.None? ==> isSubmitting == old(isSubmitting)
      ensures sent.Some? ==> !isSubmitting
    {
      if name == "" || goalAmount == "" {
        return None, Some(MissingFieldsAlert), [];
      }
      if parsedGoal <= 0.0 {
        return None, Some(NonPositiveGoalAlert), [];
      }
      isSubmitting := true;
      sent := Some(Payload(recipientId, name, description, parsedGoal, dueDate));
      if failure.None? {
        name, description, goalAmount, dueDate := "", "", "", "";
        alert, calls := None, [OnClose, OnSuccess];
      } else {
        alert, calls := failure, [];
      }
      isSubmitting := false;
    }

    /** `handleClose()`: the form is cleared and the modal closes. */
    method Close() returns (calls: seq<Callback>)
      modifies this
      ensures FormCleared() && calls == [OnClose] && isSubmitting == old(isSubmitting)
    {
      name, description, goalAmount, dueDate := "", "", "", "";
      calls := [OnClose];
    }
  }
}
