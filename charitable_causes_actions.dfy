/** The charitable-cause server actions: listing, creating, allocating to, donating to and
  * deleting a recipient's causes, and the Give balance split into allocated and unallocated money.
  * An allocation is a soft earmark on the Give balance: it moves no money. */
module CausesActions {
  import opened Wrappers
  import opened Schema
  import opened Query
  import Text

  /** The most causes a recipient may have with `is_completed = false`. */
  const MaxActiveCauses: nat := 3

  /** Whether a cause counts against `rid`'s limit and Give balance. */
  predicate IsActiveFor(c: Cause, rid: RecipientId) {
    c.recipientId == rid && !c.isCompleted
  }

  /** What a cause earmarks of `rid`'s Give balance: its allocated amount while it is active. */
  function Earmark(c: Cause, rid: RecipientId): real {
    if IsActiveFor(c, rid) then c.current else 0.0
  }

  /** Σ `current_amount` over `rid`'s causes with `is_completed = false`. */
  function TotalAllocated(cs: seq<Cause>, rid: RecipientId): real {
    if cs == [] then 0.0 else Earmark(cs[0], rid) + TotalAllocated(cs[1..], rid)
  }

  /** The number of `rid`'s causes with `is_completed = false`. */
  function ActiveCount(cs: seq<Cause>, rid: RecipientId): nat {
    if cs == [] then 0 else (if IsActiveFor(cs[0], rid) then 1 else 0) + ActiveCount(cs[1..], rid)
  }

  /** With no active cause the reduce yields 0. */
  lemma {:induction false} TotalAllocatedWithoutActive(cs: seq<Cause>, rid: RecipientId)
    requires forall i :: 0 <= i < |cs| ==> !IsActiveFor(cs[i], rid)
    ensures TotalAllocated(cs, rid) == 0.0
    ensures ActiveCount(cs, rid) == 0
  {
    if cs != [] {
      TotalAllocatedWithoutActive(cs[1..], rid);
    }
  }

  lemma {:induction false} TotalAllocatedAppend(a: seq<Cause>, b: seq<Cause>, rid: RecipientId)
    ensures TotalAllocated(a + b, rid) == TotalAllocated(a, rid) + TotalAllocated(b, rid)
    ensures ActiveCount(a + b, rid) == ActiveCount(a, rid) + ActiveCount(b, rid)
  {
    if a == [] {
      assert a + b == b;
    } else {
      assert (a + b)[1..] == a[1..] + b;
      TotalAllocatedAppend(a[1..], b, rid);
    }
  }

  /** Replacing one row changes the total by the difference of the two rows' earmarks. */
  lemma TotalAllocatedUpdate(cs: seq<Cause>, k: nat, c: Cause, rid: RecipientId)
    requires k < |cs|
    ensures TotalAllocated(cs[k := c], rid) == TotalAllocated(cs, rid) - Earmark(cs[k], rid) + Earmark(c, rid)
    ensures ActiveCount(cs[k := c], rid) ==
      ActiveCount(cs, rid) - (if IsActiveFor(cs[k], rid) then 1 else 0) + (if IsActiveFor(c, rid) then 1 else 0)
  {
    assert cs == cs[..k] + [cs[k]] + cs[k + 1..];
    assert cs[k := c] == cs[..k] + [c] + cs[k + 1..];
    TotalAllocatedAppend(cs[..k] + [cs[k]], cs[k + 1..], rid);
    TotalAllocatedAppend(cs[..k], [cs[k]], rid);
    TotalAllocatedAppend(cs[..k] + [c], cs[k + 1..], rid);
    TotalAllocatedAppend(cs[..k], [c], rid);
  }

  /** Removing one row lowers the total by that row's earmark. */
  lemma TotalAllocatedRemove(cs: seq<Cause>, k: nat, rid: RecipientId)
    requires k < |cs|
    ensures TotalAllocated(RemoveAt(cs, k), rid) == TotalAllocated(cs, rid) - Earmark(cs[k], rid)
    ensures ActiveCount(RemoveAt(cs, k), rid) == ActiveCount(cs, rid) - (if IsActiveFor(cs[k], rid) then 1 else 0)
  {
    assert cs == cs[..k] + [cs[k]] + cs[k + 1..];
    TotalAllocatedAppend(cs[..k] + [cs[k]], cs[k + 1..], rid);
    TotalAllocatedAppend(cs[..k], [cs[k]], rid);
    TotalAllocatedAppend(cs[..k], cs[k + 1..], rid);
  }

  /** Reordering the rows changes neither the count nor the total. */
  lemma {:induction false} ActiveCountPermutation(a: seq<Cause>, b: seq<Cause>, rid: RecipientId)
    requires multiset(a) == multiset(b)
    ensures ActiveCount(a, rid) == ActiveCount(b, rid)
    ensures TotalAllocated(a, rid) == TotalAllocated(b, rid)
    decreases |a|
  {
    if a != [] {
      assert a[0] in multiset(b);
      var k :| 0 <= k < |b| && b[k] == a[0];
      TotalAllocatedRemove(b, k, rid);
      PermutationTail(a, b, k);
      ActiveCountPermutation(a[1..], RemoveAt(b, k), rid);
    } else {
      assert b == [];
    }
  }

  /** The table without row `k`. */
  function RemoveAt(cs: seq<Cause>, k: nat): (r: seq<Cause>)
    requires k < |cs|
    ensures |r| == |cs| - 1
  {
    cs[..k] + cs[k + 1..]
  }

  /** The `allowance_categories` rows of `rid` of category `kind`. */
  function RowsOf(rows: seq<CategoryRow>, rid: RecipientId, kind: Category): (r: seq<CategoryRow>)
    ensures forall i :: 0 <= i < |r| ==> r[i].recipientId == rid && r[i].kind == kind
    ensures forall x :: x in rows && x.recipientId == rid && x.kind == kind ==> x in r
    ensures |r| <= |rows|
  {
    if rows == [] then []
    else
      assert rows == [rows[0]] + rows[1..];
      (if rows[0].recipientId == rid && rows[0].kind == kind then [rows[0]] else []) + RowsOf(rows[1..], rid, kind)
  }

  // ---------------------------------------------------------------------------------------------
  // getCharitableCauses

  /** The order of `.order('created_at', { ascending: true })`. */
  predicate CreatedNoLater(a: Cause, b: Cause) {
    a.createdAt <= b.createdAt
  }

  lemma CreatedOrderIsTotal()
    ensures TotalPreorder(CreatedNoLater)
  {
  }

  /** The rows of `charitable_causes` with `recipient_id = rid`, in table order. */
  function CausesOf(cs: seq<Cause>, rid: RecipientId): (r: seq<Cause>)
    ensures forall i :: 0 <= i < |r| ==> r[i].recipientId == rid
    ensures forall c :: c in cs && c.recipientId == rid ==> c in r
    ensures multiset(r) <= multiset(cs)
  {
    if cs == [] then []
    else
      assert cs == [cs[0]] + cs[1..];
      (if cs[0].recipientId == rid then [cs[0]] else []) + CausesOf(cs[1..], rid)
  }

  /** Choosing the recipient's rows does not change its count of active causes or their total. */
  lemma {:induction false} CausesOfKeepsActive(cs: seq<Cause>, rid: RecipientId)
    ensures ActiveCount(CausesOf(cs, rid), rid) == ActiveCount(cs, rid)
    ensures TotalAllocated(CausesOf(cs, rid), rid) == TotalAllocated(cs, rid)
  {
    if cs != [] {
      CausesOfKeepsActive(cs[1..], rid);
      TotalAllocatedAppend(if cs[0].recipientId == rid then [cs[0]] else [], CausesOf(cs[1..], rid), rid);
    }
  }

  /** `getCharitableCauses(recipientId)`: the recipient's causes, oldest first. */
  function GetCharitableCauses(recipients: seq<Recipient>, causes: seq<Cause>, user: Option<UserId>, rid: RecipientId)
    : (r: Result<seq<Cause>, Error>)
    ensures user.None? ==> r == Failure(NotAuthenticated)
    ensures user.Some? && !Owns(recipients, user.value, rid, false) ==> r == Failure(RecipientNotFound)
    ensures user.Some? && Owns(recipients, user.value, rid, false) ==> r.Success?
    ensures r.Success? ==> multiset(r.value) == multiset(CausesOf(causes, rid))
    ensures r.Success? ==> SortedBy(r.value, CreatedNoLater)
  {
    if user.None? then Failure(NotAuthenticated)
    else if !Owns(recipients, user.value, rid, false) then Failure(RecipientNotFound)
    else
      CreatedOrderIsTotal();
      SortBySorted(CausesOf(causes, rid), CreatedNoLater);
      Success(SortBy(CausesOf(causes, rid), CreatedNoLater))
  }

  /** Every listed cause is one of the recipient's rows, and a recipient with no rows gets []. */
  lemma ListedCausesBelongToRecipient(recipients: seq<Recipient>, causes: seq<Cause>, user: Option<UserId>, rid: RecipientId)
    requires GetCharitableCauses(recipients, causes, user, rid).Success?
    ensures var listed := GetCharitableCauses(recipients, causes, user, rid).value;
      && (forall c :: c in listed ==> c in causes && c.recipientId == rid)
      && (forall c :: c in causes && c.recipientId == rid ==> c in listed)
      && ((forall i :: 0 <= i < |causes| ==> causes[i].recipientId != rid) ==> listed == [])
  {
    var listed := GetCharitableCauses(recipients, causes, user, rid).value;
    forall c | c in listed ensures c in causes && c.recipientId == rid {
      assert c in multiset(listed);
      assert c in multiset(CausesOf(causes, rid));
    }
    forall c | c in causes && c.recipientId == rid ensures c in listed {
      assert c in multiset(CausesOf(causes, rid));
      assert c in multiset(listed);
    }
  }

  // ---------------------------------------------------------------------------------------------
  // getGiveCategoryBalance

  datatype GiveBalance = GiveBalance(totalUnspent: real, totalAllocated: real, unallocated: real)

  /** `getGiveCategoryBalance(recipientId)`. The Give row is read with `.single()`, so anything
    * but exactly one such row is an error. */
  function GetGiveCategoryBalance(
    recipients: seq<Recipient>, categories: seq<CategoryRow>, causes: seq<Cause>,
    user: Option<UserId>, rid: RecipientId): (r: Result<GiveBalance, Error>)
    ensures r.Success? <==>
      user.Some? && Owns(recipients, user.value, rid, false) && |RowsOf(categories, rid, Give)| == 1
    ensures user.None? ==> r == Failure(NotAuthenticated)
    ensures user.Some? && !Owns(recipients, user.value, rid, false) ==> r == Failure(RecipientNotFound)
    ensures r.Success? ==>
      && r.value.totalUnspent == RowsOf(categories, rid, Give)[0].balance
      && r.value.totalAllocated == TotalAllocated(causes, rid)
      && r.value.unallocated == r.value.totalUnspent - r.value.totalAllocated
  {
    if user.None? then Failure(NotAuthenticated)
    else if !Owns(recipients, user.value, rid, false) then Failure(RecipientNotFound)
    else
      var give := RowsOf(categories, rid, Give);
      if |give| != 1 then Failure(GiveBalanceUnavailable)
      else
        var earmarked := TotalAllocated(causes, rid);
        Success(GiveBalance(give[0].balance, earmarked, give[0].balance - earmarked))
  }

  /** Completed causes and other recipients' causes do not earmark anything: with no active
    * cause the whole Give balance is unallocated. */
  lemma UnallocatedWithoutActiveCauses(
    recipients: seq<Recipient>, categories: seq<CategoryRow>, causes: seq<Cause>, user: Option<UserId>, rid: RecipientId)
    requires GetGiveCategoryBalance(recipients, categories, causes, user, rid).Success?
    requires forall i :: 0 <= i < |causes| ==> !IsActiveFor(causes[i], rid)
    ensures var b := GetGiveCategoryBalance(recipients, categories, causes, user, rid).value;
      b.totalAllocated == 0.0 && b.unallocated == b.totalUnspent
  {
    TotalAllocatedWithoutActive(causes, rid);
  }

  // ---------------------------------------------------------------------------------------------
  // createCharitableCause

  /** The `CreateCauseData` argument. */
  datatype NewCauseData = NewCauseData(
    recipientId: RecipientId, name: string, description: Option<string>,
    goalAmount: real, dueDate: Option<string>)

  /** The row the insert stores: `current_amount` and `is_completed` take the table's defaults,
    * a missing or empty description or due date becomes null. The goal is not checked. */
  function NewCause(id: RowId, data: NewCauseData, now: int): (c: Cause)
    ensures c.id == id && c.recipientId == data.recipientId && c.goal == data.goalAmount
    ensures c.current == 0.0 && !c.isCompleted && c.completedAt.None?
    ensures c.description.None? <==> data.description.None? || data.description == Some("")
    ensures c.dueDate.None? <==> data.dueDate.None? || data.dueDate == Some("")
  {
    Cause(id, data.recipientId, data.name, Text.OrNull(data.description), data.goalAmount, 0.0,
          Text.OrNull(data.dueDate), false, None, now, now)
  }

  /** The guards of `createCharitableCause`, in the order it runs them. */
  function CreateCauseCheck(recipients: seq<Recipient>, causes: seq<Cause>, user: Option<UserId>, rid: RecipientId)
    : (e: Option<Error>)
    ensures user.None? ==> e == Some(NotAuthenticated)
    ensures user.Some? && !Owns(recipients, user.value, rid, false) ==> e == Some(RecipientNotFound)
    ensures user.Some? && Owns(recipients, user.value, rid, false) && ActiveCount(causes, rid) >= MaxActiveCauses ==>
      e == Some(MaxActiveCausesReached)
    ensures e.None? <==>
      user.Some? && Owns(recipients, user.value, rid, false) && ActiveCount(causes, rid) < MaxActiveCauses
    ensures e.Some? ==> e.value in {NotAuthenticated, RecipientNotFound, MaxActiveCausesReached}
  {
    if user.None? then Some(NotAuthenticated)
    else if !Owns(recipients, user.value, rid, false) then Some(RecipientNotFound)
    else if ActiveCount(causes, rid) >= MaxActiveCauses then Some(MaxActiveCausesReached)
    else None
  }

  /** `createCharitableCause(data)`. */
  method CreateCharitableCause(db: Db, user: Option<UserId>, data: NewCauseData, now: int)
    returns (r: Result<Cause, Error>)
    requires db.Valid()
    modifies db`causes, db`nextId
    ensures db.Valid()
    ensures r.Failure? ==>
      && Some(r.error) == CreateCauseCheck(db.recipients, old(db.causes), user, data.recipientId)
      && db.causes == old(db.causes) && db.nextId == old(db.nextId)
    ensures r.Success? ==>
      && CreateCauseCheck(db.recipients, old(db.causes), user, data.recipientId).None?
      && r.value == NewCause(old(db.nextId), data, now)
      && db.causes == old(db.causes) + [r.value]
  {
    var check := CreateCauseCheck(db.recipients, db.causes, user, data.recipientId);
    if check.Some? {
      return Failure(check.value);
    }
    var cause := NewCause(db.nextId, data, now);
    db.causes := db.causes + [cause];
    db.nextId := db.nextId + 1;
    r := Success(cause);
  }

  /** Each recipient has at most `MaxActiveCauses` active causes. */
  ghost predicate WithinCauseLimit(cs: seq<Cause>) {
    forall rid :: ActiveCount(cs, rid) <= MaxActiveCauses
  }

  /** A successful creation keeps every recipient within the limit, earmarks nothing, and counts
    * one more active cause for its recipient only. */
  lemma CreateKeepsLimit(recipients: seq<Recipient>, cs: seq<Cause>, user: Option<UserId>, data: NewCauseData, id: RowId, now: int)
    requires WithinCauseLimit(cs)
    requires CreateCauseCheck(recipients, cs, user, data.recipientId).None?
    ensures WithinCauseLimit(cs + [NewCause(id, data, now)])
    ensures forall rid :: TotalAllocated(cs + [NewCause(id, data, now)], rid) == TotalAllocated(cs, rid)
    ensures ActiveCount(cs + [NewCause(id, data, now)], data.recipientId) == ActiveCount(cs, data.recipientId) + 1
  {
    var c := NewCause(id, data, now);
    forall rid
      ensures ActiveCount(cs + [c], rid) <= MaxActiveCauses
      ensures TotalAllocated(cs + [c], rid) == TotalAllocated(cs, rid)
    {
      TotalAllocatedAppend(cs, [c], rid);
      assert TotalAllocated([c], rid) == Earmark(c, rid) + TotalAllocated([], rid);
      assert ActiveCount([c], rid) == (if IsActiveFor(c, rid) then 1 else 0) + ActiveCount([], rid);
    }
    TotalAllocatedAppend(cs, [c], data.recipientId);
    assert ActiveCount([c], data.recipientId) == 1 + ActiveCount([], data.recipientId);
  }

  /** Completed causes never count against the limit: adding one changes no verdict. */
  lemma CompletedCausesDoNotCount(recipients: seq<Recipient>, cs: seq<Cause>, done: Cause, user: Option<UserId>, rid: RecipientId)
    requires done.isCompleted
    ensures CreateCauseCheck(recipients, cs + [done], user, rid) == CreateCauseCheck(recipients, cs, user, rid)
  {
    TotalAllocatedAppend(cs, [done], rid);
    assert ActiveCount([done], rid) == 0 + ActiveCount([], rid);
  }

  // ---------------------------------------------------------------------------------------------
  // Looking a cause up through the `recipients!inner` join

  /** The index of cause `causeId` when its recipient is managed by `user`. */
  function OwnedCauseIndex(recipients: seq<Recipient>, causes: seq<Cause>, user: UserId, causeId: RowId)
    : (k: Option<nat>)
    ensures k.Some? ==> k.value < |causes| && causes[k.value].id == causeId
    ensures k.Some? ==> Owns(recipients, user, causes[k.value].recipientId, false)
    ensures k.None? ==> forall i :: 0 <= i < |causes| && causes[i].id == causeId && CauseIdsUnique(causes) ==>
      !Owns(recipients, user, causes[i].recipientId, false)
  {
    match FindCause(causes, causeId)
    case None => None
    case Some(k) => if Owns(recipients, user, causes[k].recipientId, false) then Some(k) else None
  }

  // ---------------------------------------------------------------------------------------------
  // completeDonation

  /** The call to the `complete_charitable_donation` stored procedure. */
  datatype DonationCall = DonationCall(causeId: RowId, recipientId: RecipientId, amount: real, causeName: string)

  /** The first Give row of the recipient, as `allowance_categories.find(...)` picks it. */
  function FirstGiveRow(categories: seq<CategoryRow>, rid: RecipientId): (r: Option<CategoryRow>)
    ensures r.Some? <==> RowsOf(categories, rid, Give) != []
    ensures r.Some? ==> r.value == RowsOf(categories, rid, Give)[0]
  {
    var rows := RowsOf(categories, rid, Give);
    if rows == [] then None else Some(rows[0])
  }

  /** `completeDonation(data)`, up to the call of the stored procedure, which is returned rather
    * than run: its body is not part of this model. Both guards come before the call. */
  function CompleteDonation(
    recipients: seq<Recipient>, categories: seq<CategoryRow>, causes: seq<Cause>,
    user: Option<UserId>, causeId: RowId, donationAmount: real): (r: Result<DonationCall, Error>)
    ensures user.None? ==> r == Failure(NotAuthenticated)
    ensures r.Success? ==> user.Some? && OwnedCauseIndex(recipients, causes, user.value, causeId).Some?
    ensures r.Success? ==>
      var c := causes[OwnedCauseIndex(recipients, causes, user.value, causeId).value];
      && !c.isCompleted
      && FirstGiveRow(categories, c.recipientId).Some?
      && FirstGiveRow(categories, c.recipientId).value.balance >= donationAmount
      && r.value == DonationCall(causeId, c.recipientId, donationAmount, c.name)
    ensures user.Some? && OwnedCauseIndex(recipients, causes, user.value, causeId).None? ==> r == Failure(CauseNotFound)
    ensures user.Some? && OwnedCauseIndex(recipients, causes, user.value, causeId).Some? ==>
      var c := causes[OwnedCauseIndex(recipients, causes, user.value, causeId).value];
      var give := FirstGiveRow(categories, c.recipientId);
      !c.isCompleted && give.Some? && give.value.balance >= donationAmount ==> r.Success?
  {
    if user.None? then Failure(NotAuthenticated)
    else match OwnedCauseIndex(recipients, causes, user.value, causeId)
      case None => Failure(CauseNotFound)
      case Some(k) =>
        var c := causes[k];
        if c.isCompleted then Failure(AlreadyCompleted)
        else
          var give := FirstGiveRow(categories, c.recipientId);
          if give.None? || give.value.balance < donationAmount then Failure(InsufficientGiveFunds)
          else Success(DonationCall(causeId, c.recipientId, donationAmount, c.name))
  }

  /** A completed cause is refused before the balance is looked at: even with funds to spare. */
  lemma CompletedCauseIsRefused(
    recipients: seq<Recipient>, categories: seq<CategoryRow>, causes: seq<Cause>,
    user: UserId, causeId: RowId, donationAmount: real)
    requires OwnedCauseIndex(recipients, causes, user, causeId).Some?
    requires causes[OwnedCauseIndex(recipients, causes, user, causeId).value].isCompleted
    ensures CompleteDonation(recipients, categories, causes, Some(user), causeId, donationAmount) == Failure(AlreadyCompleted)
  {
  }

  /** An open cause is refused for lack of funds exactly when the first Give row is missing or
    * holds less than the donation. */
  lemma DonationFundsCheck(
    recipients: seq<Recipient>, categories: seq<CategoryRow>, causes: seq<Cause>,
    user: UserId, causeId: RowId, donationAmount: real)
    requires OwnedCauseIndex(recipients, causes, user, causeId).Some?
    requires !causes[OwnedCauseIndex(recipients, causes, user, causeId).value].isCompleted
    ensures var rid := causes[OwnedCauseIndex(recipients, causes, user, causeId).value].recipientId;
      var rows := RowsOf(categories, rid, Give);
      CompleteDonation(recipients, categories, causes, Some(user), causeId, donationAmount) == Failure(InsufficientGiveFunds)
      <==> rows == [] || rows[0].balance < donationAmount
  {
  }

  // ---------------------------------------------------------------------------------------------
  // deleteCharitableCause

  /** `deleteCharitableCause(causeId)`: removes the named cause when its recipient is the caller's. */
  method DeleteCharitableCause(db: Db, user: Option<UserId>, causeId: RowId) returns (r: Result<(), Error>)
    requires db.Valid()
    modifies db`causes
    ensures db.Valid()
    ensures user.None? ==> r == Failure(NotAuthenticated)
    ensures r.Success? <==> user.Some? && OwnedCauseIndex(db.recipients, old(db.causes), user.value, causeId).Some?
    ensures r.Failure? ==> db.causes == old(db.causes)
    ensures r.Failure? && user.Some? ==> r.error == CauseNotFound
    ensures r.Success? ==>
      db.causes == RemoveAt(old(db.causes), OwnedCauseIndex(db.recipients, old(db.causes), user.value, causeId).value)
  {
    if user.None? {
      return Failure(NotAuthenticated);
    }
    var k := OwnedCauseIndex(db.recipients, db.causes, user.value, causeId);
    if k.None? {
      return Failure(CauseNotFound);
    }
    ghost var before := db.causes;
    db.causes := RemoveAt(db.causes, k.value);
    assert forall i, j :: 0 <= i < j < |db.causes| ==> db.causes[i].id != db.causes[j].id by {
      forall i, j | 0 <= i < j < |db.causes| ensures db.causes[i].id != db.causes[j].id {
        var i' := if i < k.value then i else i + 1;
        var j' := if j < k.value then j else j + 1;
        assert db.causes[i] == before[i'] && db.causes[j] == before[j'];
      }
    }
    r := Success(());
  }

  /** Deleting a cause releases its earmark: the recipient's unallocated money rises by the
    * cause's `current_amount` if it was active, and by nothing if it was completed. No other
    * recipient's balance moves. */
  lemma DeleteReleasesEarmark(
    recipients: seq<Recipient>, categories: seq<CategoryRow>, cs: seq<Cause>, user: Option<UserId>, k: nat, rid: RecipientId)
    requires k < |cs|
    requires GetGiveCategoryBalance(recipients, categories, cs, user, rid).Success?
    ensures var before := GetGiveCategoryBalance(recipients, categories, cs, user, rid);
      var after := GetGiveCategoryBalance(recipients, categories, RemoveAt(cs, k), user, rid);
      && after.Success?
      && after.value.unallocated == before.value.unallocated + Earmark(cs[k], rid)
      && after.value.totalUnspent == before.value.totalUnspent
      && (IsActiveFor(cs[k], rid) ==> after.value.unallocated == before.value.unallocated + cs[k].current)
      && (cs[k].recipientId != rid ==> after.value == before.value)
  {
    TotalAllocatedRemove(cs, k, rid);
  }

  // ---------------------------------------------------------------------------------------------
  // allocateToCharity

  /** The cause table after adding `amount` to row `k`'s `current_amount`. */
  function AllocateAt(cs: seq<Cause>, k: nat, amount: real, now: int): (r: seq<Cause>)
    requires k < |cs|
    ensures |r| == |cs|
    ensures r[k] == cs[k].(current := cs[k].current + amount, updatedAt := now)
    ensures forall j :: 0 <= j < |cs| && j != k ==> r[j] == cs[j]
  {
    cs[k := cs[k].(current := cs[k].current + amount, updatedAt := now)]
  }

  /** The guards of `allocateToCharity`, in the order it runs them: the goal, then the
    * unallocated funds. There is no check that `amount` is positive, nor that the cause is open. */
  function AllocateCheck(
    recipients: seq<Recipient>, categories: seq<CategoryRow>, causes: seq<Cause>,
    user: Option<UserId>, causeId: RowId, amount: real): (e: Option<Error>)
    ensures user.None? ==> e == Some(NotAuthenticated)
    ensures e.None? ==> user.Some? && OwnedCauseIndex(recipients, causes, user.value, causeId).Some?
    ensures e.None? ==>
      var c := causes[OwnedCauseIndex(recipients, causes, user.value, causeId).value];
      var b := GetGiveCategoryBalance(recipients, categories, causes, user, c.recipientId);
      && c.current + amount <= c.goal
      && b.Success? && amount <= b.value.unallocated
    ensures user.Some? && OwnedCauseIndex(recipients, causes, user.value, causeId).None? ==> e == Some(CauseNotFound)
    ensures user.Some? && OwnedCauseIndex(recipients, causes, user.value, causeId).Some? ==>
      var c := causes[OwnedCauseIndex(recipients, causes, user.value, causeId).value];
      var b := GetGiveCategoryBalance(recipients, categories, causes, user, c.recipientId);
      && (c.current + amount > c.goal ==> e == Some(GoalExceeded))
      && (c.current + amount <= c.goal && b.Failure? ==> e == Some(b.error))
      && (c.current + amount <= c.goal && b.Success? && amount > b.value.unallocated ==>
            e == Some(InsufficientUnallocated))
  {
    if user.None? then Some(NotAuthenticated)
    else match OwnedCauseIndex(recipients, causes, user.value, causeId)
      case None => Some(CauseNotFound)
      case Some(k) =>
        if causes[k].current + amount > causes[k].goal then Some(GoalExceeded)
        else match GetGiveCategoryBalance(recipients, categories, causes, user, causes[k].recipientId)
          case Failure(err) => Some(err)
          case Success(b) => if amount > b.unallocated then Some(InsufficientUnallocated) else None
  }

  /** `allocateToCharity(causeId, amount)`. */
  method AllocateToCharity(db: Db, user: Option<UserId>, causeId: RowId, amount: real, now: int)
    returns (r: Result<(), Error>)
    requires db.Valid()
    modifies db`causes
    ensures db.Valid()
    ensures r.Failure? ==>
      && Some(r.error) == AllocateCheck(db.recipients, db.categories, old(db.causes), user, causeId, amount)
      && db.causes == old(db.causes)
    ensures r.Success? ==>
      && AllocateCheck(db.recipients, db.categories, old(db.causes), user, causeId, amount).None?
      && db.causes == AllocateAt(old(db.causes),
           OwnedCauseIndex(db.recipients, old(db.causes), user.value, causeId).value, amount, now)
  {
    var check := AllocateCheck(db.recipients, db.categories, db.causes, user, causeId, amount);
    if check.Some? {
      return Failure(check.value);
    }
    var k := OwnedCauseIndex(db.recipients, db.causes, user.value, causeId).value;
    ghost var before := db.causes;
    db.causes := AllocateAt(db.causes, k, amount, now);
    assert forall i :: 0 <= i < |db.causes| ==> db.causes[i].id == before[i].id;
    r := Success(());
  }

  /** After a successful allocation the cause is within its goal, no other cause has changed,
    * the Give balance is the same and the unallocated money has dropped by `amount` — by nothing
    * when the cause was already completed, since completed causes earmark nothing. It is then
    * not negative, unless a completed cause received a negative amount. */
  lemma AllocationKeepsBounds(
    recipients: seq<Recipient>, categories: seq<CategoryRow>, cs: seq<Cause>,
    user: Option<UserId>, causeId: RowId, amount: real, now: int)
    requires AllocateCheck(recipients, categories, cs, user, causeId, amount).None?
    ensures var k := OwnedCauseIndex(recipients, cs, user.value, causeId).value;
      var rid := cs[k].recipientId;
      var after := AllocateAt(cs, k, amount, now);
      var b0 := GetGiveCategoryBalance(recipients, categories, cs, user, rid);
      var b1 := GetGiveCategoryBalance(recipients, categories, after, user, rid);
      && after[k].current == cs[k].current + amount
      && after[k].current <= after[k].goal
      && (forall j :: 0 <= j < |cs| && j != k ==> after[j] == cs[j])
      && b0.Success? && b1.Success?
      && b1.value.totalUnspent == b0.value.totalUnspent
      && b1.value.unallocated == b0.value.unallocated - (if cs[k].isCompleted then 0.0 else amount)
      && (!cs[k].isCompleted || amount >= 0.0 ==> b1.value.unallocated >= 0.0)
  {
    var k := OwnedCauseIndex(recipients, cs, user.value, causeId).value;
    TotalAllocatedUpdate(cs, k, AllocateAt(cs, k, amount, now)[k], cs[k].recipientId);
  }

  /** An allocation leaves every other recipient's Give figures as they were. */
  lemma AllocationIsLocal(cs: seq<Cause>, k: nat, amount: real, now: int, other: RecipientId)
    requires k < |cs| && cs[k].recipientId != other
    ensures TotalAllocated(AllocateAt(cs, k, amount, now), other) == TotalAllocated(cs, other)
  {
    TotalAllocatedUpdate(cs, k, AllocateAt(cs, k, amount, now)[k], other);
  }

  /** Allocating to a cause and then deleting it leaves the recipient's unallocated money
    * higher than before the allocation by what the cause held before it, and exactly where it
    * was when the cause held nothing or was completed. */
  lemma AllocateThenDelete(
    recipients: seq<Recipient>, categories: seq<CategoryRow>, cs: seq<Cause>,
    user: Option<UserId>, k: nat, amount: real, now: int)
    requires k < |cs|
    requires GetGiveCategoryBalance(recipients, categories, cs, user, cs[k].recipientId).Success?
    ensures var rid := cs[k].recipientId;
      var before := GetGiveCategoryBalance(recipients, categories, cs, user, rid);
      var after := GetGiveCategoryBalance(recipients, categories, RemoveAt(AllocateAt(cs, k, amount, now), k), user, rid);
      && after.Success?
      && after.value.unallocated == before.value.unallocated + Earmark(cs[k], rid)
      && (cs[k].current == 0.0 || cs[k].isCompleted ==> after.value.unallocated == before.value.unallocated)
  {
    assert RemoveAt(AllocateAt(cs, k, amount, now), k) == RemoveAt(cs, k);
    DeleteReleasesEarmark(recipients, categories, cs, user, k, cs[k].recipientId);
  }

  /** The server accepts a negative amount: it lowers `current_amount`, even below zero. */
  lemma NegativeAllocationAccepted()
    ensures var rs := [Recipient("r", "m", "Ada", 5.0, None, true, false, 0, 0)];
      var cats := [CategoryRow("r", Give, 0.0, 0)];
      var cs := [Cause(7, "r", "Shelter", None, 10.0, 0.0, None, false, None, 0, 0)];
      && AllocateCheck(rs, cats, cs, Some("m"), 7, -5.0).None?
      && AllocateAt(cs, 0, -5.0, 1)[0].current == -5.0
  {
    var rs := [Recipient("r", "m", "Ada", 5.0, None, true, false, 0, 0)];
    var cats := [CategoryRow("r", Give, 0.0, 0)];
    var cs := [Cause(7, "r", "Shelter", None, 10.0, 0.0, None, false, None, 0, 0)];
    assert RowsOf(cats, "r", Give) == [cats[0]];
    assert TotalAllocated(cs, "r") == 0.0;
  }

  /** Give balance 40, cause A (goal 50, allocated 20) and cause B (goal 30, allocated 10):
    * 10 is unallocated, so allocating 15 to A is refused for funds although A's goal allows it. */
  lemma AllocationExample()
    ensures var rs := [Recipient("r", "m", "Ada", 10.0, None, true, false, 0, 0)];
      var cats := [CategoryRow("r", Give, 40.0, 0)];
      var cs := [Cause(1, "r", "A", None, 50.0, 20.0, None, false, None, 0, 0),
                 Cause(2, "r", "B", None, 30.0, 10.0, None, false, None, 0, 0)];
      && GetGiveCategoryBalance(rs, cats, cs, Some("m"), "r") == Success(GiveBalance(40.0, 30.0, 10.0))
      && AllocateCheck(rs, cats, cs, Some("m"), 1, 15.0) == Some(InsufficientUnallocated)
  {
    var cats := [CategoryRow("r", Give, 40.0, 0)];
    var cs := [Cause(1, "r", "A", None, 50.0, 20.0, None, false, None, 0, 0),
               Cause(2, "r", "B", None, 30.0, 10.0, None, false, None, 0, 0)];
    assert RowsOf(cats, "r", Give) == [cats[0]];
    assert TotalAllocated(cs, "r") == 30.0 by {
      assert TotalAllocated(cs[1..], "r") == 10.0 + TotalAllocated(cs[2..], "r");
    }
  }
}
