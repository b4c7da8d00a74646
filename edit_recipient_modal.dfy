/** The edit-recipient modal: a form over the recipient's name, allowance and avatar, its
  * validation, the update it submits, and the two-click account reset. */
module EditRecipientModal {
  import opened Wrappers
  import opened Schema
  import Text
  import RecipientActions

  /** The keys of the `errors` record; nothing ever sets an avatar error, but editing the avatar
    * looks one up. */
  datatype ErrorKey = NameKey | AllowanceKey | AvatarKey | SubmitKey

  const NameRequired: string := "Name is required"
  const AllowanceMustBePositive: string := "Allowance amount must be greater than 0"
  const UpdateFailed: string := "Failed to update recipient profile. Please try again."
  const ResetFailedPrefix: string := "Failed to reset account: "

  /** One call of `handleInputChange`: the field and the value typed (the allowance already
    * parsed, with `|| 0` applied). */
  datatype Edit = NameEdit(name: string) | AllowanceEdit(amount: real) | AvatarEdit(url: string)

  /** The field an edit clears the error of. */
  function KeyOf(e: Edit): ErrorKey {
    match e
    case NameEdit(_) => NameKey
    case AllowanceEdit(_) => AllowanceKey
    case AvatarEdit(_) => AvatarKey
  }

  /** The callbacks the modal runs, in the order it runs them. */
  datatype Callback = OnSuccess | OnClose

  /** The update `handleSubmit` sends: the trimmed name, and the trimmed avatar or null when blank. */
  function Payload(recipientId: RecipientId, name: string, allowance: real, avatarUrl: string)
    : (p: RecipientActions.ProfileUpdate)
    ensures p.recipientId == recipientId && p.allowanceAmount == allowance
    ensures p.name == Text.Trim(name)
    ensures p.avatarUrl.None? <==> Text.Trim(avatarUrl) == ""
    ensures p.avatarUrl.Some? ==> p.avatarUrl.value == Text.Trim(avatarUrl)
  {
    RecipientActions.ProfileUpdate(recipientId, Text.Trim(name), allowance, Text.OrNull(Some(Text.Trim(avatarUrl))))
  }

  /** A payload built from a form that validates passes both input checks of the server's
    * `updateRecipientProfile`: the server then fails only if the recipient is not the caller's
    * active recipient. */
  lemma ValidPayloadPassesInputChecks(
    recipients: seq<Recipient>, user: UserId, recipientId: RecipientId, name: string, allowance: real, avatarUrl: string)
    requires recipientId != ""
    requires Text.Trim(name) != "" && allowance > 0.0
    ensures var p := Payload(recipientId, name, allowance, avatarUrl);
      RecipientActions.UpdateCheck(recipients, Some(user), p) ==
        if Owns(recipients, user, recipientId, true) then None else Some(RecipientNotFound)
  {
    Text.TrimIdempotent(name);
  }

  /** The `errors` record: for each key, no entry or the message stored under it. */
  datatype Errors = Errors(name: Option<string>, allowance: Option<string>, avatar: Option<string>, submit: Option<string>) {
    function Get(k: ErrorKey): Option<string> {
      match k
      case NameKey => name
      case AllowanceKey => allowance
      case AvatarKey => avatar
      case SubmitKey => submit
    }

    /** `{ ...errors, [k]: v }` */
    function Set(k: ErrorKey, v: string): (r: Errors)
      ensures r.Get(k) == Some(v)
      ensures forall j :: j != k ==> r.Get(j) == Get(j)
    {
      match k
      case NameKey => this.(name := Some(v))
      case AllowanceKey => this.(allowance := Some(v))
      case AvatarKey => this.(avatar := Some(v))
      case SubmitKey => this.(submit := Some(v))
    }
  }

  /** `{}`: a record without keys. */
  const NoErrors := Errors(None, None, None, None)

  /** The errors `validateForm` records: a name error exactly when the trimmed name is empty and
    * an allowance error exactly when the allowance is not positive, each with its message, and
    * nothing else; the record is empty exactly when both fields are acceptable. */
  function FormErrors(name: string, allowance: real): (e: Errors)
    ensures e.Get(NameKey).Some? <==> Text.Trim(name) == ""
    ensures e.Get(AllowanceKey).Some? <==> allowance <= 0.0
    ensures e.Get(AvatarKey).None? && e.Get(SubmitKey).None?
    ensures e.Get(NameKey).Some? ==> e.Get(NameKey).value == NameRequired
    ensures e.Get(AllowanceKey).Some? ==> e.Get(AllowanceKey).value == AllowanceMustBePositive
    ensures e == NoErrors <==> Text.Trim(name) != "" && allowance > 0.0
  {
    var withName := if Text.Trim(name) == "" then NoErrors.Set(NameKey, NameRequired) else NoErrors;
    if allowance <= 0.0 then withName.Set(AllowanceKey, AllowanceMustBePositive) else withName
  }

  /** The modal for one recipient. The recipient's stored values are constants; the form, the
    * errors and the flags are the React state. */
  class Modal {
    const recipientId: RecipientId
    const originalName: string
    const originalAllowance: real
    const originalAvatar: string

    var name: string
    var allowanceAmount: real
    var avatarUrl: string
    var errors: Errors
    var isLoading: bool
    var isResetting: bool
    var showResetConfirm: bool

    /** An error is displayed when its entry is present and not empty. */
    predicate Shows(k: ErrorKey)
      reads this
    {
      errors.Get(k).Some? && errors.Get(k).value != ""
    }

    /** The form as it opens: the recipient's values, the avatar `|| ''`. */
    constructor (recipientId: RecipientId, name: string, allowance: real, avatarUrl: Option<string>)
      ensures this.recipientId == recipientId && originalName == name && originalAllowance == allowance
      ensures originalAvatar == avatarUrl.GetOr("")
      ensures this.name == name && allowanceAmount == allowance && this.avatarUrl == avatarUrl.GetOr("")
      ensures errors == NoErrors && !isLoading && !isResetting && !showResetConfirm
    {
      this.recipientId := recipientId;
      originalName := name;
      originalAllowance := allowance;
      originalAvatar := avatarUrl.GetOr("");
      this.name := name;
      allowanceAmount := allowance;
      this.avatarUrl := avatarUrl.GetOr("");
      errors := NoErrors;
      isLoading := false;
      isResetting := false;
      showResetConfirm := false;
    }

    /** `handleInputChange(field, value)`: the field takes the value, and a displayed error of
      * that field is blanked; every other error stays. */
    method InputChange(e: Edit)
      modifies this
      ensures e.NameEdit? ==> name == e.name && allowanceAmount == old(allowanceAmount) && avatarUrl == old(avatarUrl)
      ensures e.AllowanceEdit? ==> allowanceAmount == e.amount && name == old(name) && avatarUrl == old(avatarUrl)
      ensures e.AvatarEdit? ==> avatarUrl == e.url && name == old(name) && allowanceAmount == old(allowanceAmount)
      ensures forall k :: errors.Get(k).Some? <==> old(errors).Get(k).Some?
      ensures !Shows(KeyOf(e))
      ensures forall k :: k != KeyOf(e) ==> errors.Get(k) == old(errors).Get(k)
      ensures isLoading == old(isLoading) && isResetting == old(isResetting) && showResetConfirm == old(showResetConfirm)
    {
      match e {
        case NameEdit(v) => name := v;
        case AllowanceEdit(v) => allowanceAmount := v;
        case AvatarEdit(v) => avatarUrl := v;
      }
      var k := KeyOf(e);
      if Shows(k) {
        errors := errors.Set(k, "");
      }
    }

    /** `validateForm()`: the errors are replaced by the record of the form's input errors, and
      * the form is valid exactly when that record has no keys. */
    method ValidateForm() returns (valid: bool)
      modifies this`errors
      ensures errors == FormErrors(name, allowanceAmount)
      ensures valid <==> errors == NoErrors
    {
      var newErrors := FormErrors(name, allowanceAmount);
      errors := newErrors;
      // `Object.keys(newErrors).length === 0`
      valid := newErrors == NoErrors;
    }

    /** `handleSubmit()`. `rejected` is whether `updateRecipientProfile` throws. Returns the update
      * sent, if any, and the callbacks run. */
    method Submit(rejected: bool) returns (sent: Option<RecipientActions.ProfileUpdate>, calls: seq<Callback>)
      modifies this`errors, this`isLoading
      ensures sent.Some? <==> Text.Trim(name) != "" && allowanceAmount > 0.0
      ensures sent.Some? ==> sent.value == Payload(recipientId, name, allowanceAmount, avatarUrl)
      ensures sent.None? ==> errors == FormErrors(name, allowanceAmount) && calls == [] && isLoading == old(isLoading)
      ensures sent.Some? && !rejected ==> calls == [OnSuccess, OnClose] && errors == NoErrors
      ensures sent.Some? && rejected ==> calls == [] && errors == NoErrors.(submit := Some(UpdateFailed))
      ensures sent.Some? ==> !isLoading
    {
      var valid := ValidateForm();
      assert valid <==> Text.Trim(name) != "" && allowanceAmount > 0.0;
      if !valid {
        return None, [];
      }
      var payload := Payload(recipientId, name, allowanceAmount, avatarUrl);
      isLoading := true;
      sent := Some(payload);
      if rejected {
        errors := NoErrors.(submit := Some(UpdateFailed));
        calls := [];
      } else {
        calls := [OnSuccess, OnClose];
      }
      isLoading := false;
    }

    /** `handleCancel()`: the form returns to the recipient's values, errors and the reset
      * confirmation are cleared, and the modal closes. */
    method Cancel() returns (calls: seq<Callback>)
      modifies this
      ensures name == originalName && allowanceAmount == originalAllowance && avatarUrl == originalAvatar
      ensures errors == NoErrors && !showResetConfirm
      ensures calls == [OnClose]
      ensures isLoading == old(isLoading) && isResetting == old(isResetting)
    {
      name := originalName;
      allowanceAmount := originalAllowance;
      avatarUrl := originalAvatar;
      errors := NoErrors;
      showResetConfirm := false;
      calls := [OnClose];
    }

    /** `handleResetAccount()`. The first click only arms the confirmation; the second calls
      * `resetRecipientAccount`, whose outcome is `failure` (the error's message, if it throws).
      * Either way the attempt ends disarmed and not resetting. */
    method ResetAccount(failure: Option<string>) returns (called: bool, calls: seq<Callback>)
      modifies this
      ensures called <==> old(showResetConfirm)
      ensures !called ==> showResetConfirm && calls == [] && errors == old(errors)
      ensures called ==> !showResetConfirm
      ensures called && failure.None? ==> calls == [OnSuccess, OnClose] && errors == old(errors)
      ensures called && failure.Some? ==> calls == [] && errors == NoErrors.(submit := Some(ResetFailedPrefix + failure.value))
      ensures !isResetting || (!called && old(isResetting))
      ensures name == old(name) && allowanceAmount == old(allowanceAmount) && avatarUrl == old(avatarUrl)
      ensures isLoading == old(isLoading)
    {
      if !showResetConfirm {
        showResetConfirm := true;
        return false, [];
      }
      called := true;
      isResetting := true;
      if failure.None? {
        calls := [OnSuccess, OnClose];
      } else {
        errors := NoErrors.(submit := Some(ResetFailedPrefix + failure.value));
        calls := [];
      }
      isResetting := false;
      showResetConfirm := false;
    }

    /** The Cancel button beside the armed reset button. */
    method CancelReset()
      modifies this`showResetConfirm
      ensures !showResetConfirm
    {
      showResetConfirm := false;
    }

    /** Cancel, Save and the reset button are disabled while either request is in flight. */
    predicate ActionsDisabled()
      reads this
    {
      isLoading || isResetting
    }
  }

  /** Two clicks on a disarmed reset button call the server exactly once, on the second. */
  method TwoClickReset(m: Modal, failure: Option<string>) returns (first: bool, second: bool)
    requires !m.showResetConfirm
    modifies m
    ensures !first && second
    ensures !m.showResetConfirm && !m.isResetting
  {
    var calls;
    first, calls := m.ResetAccount(failure);
    second, calls := m.ResetAccount(failure);
  }
}
