/** The recipient server actions: editing a recipient's profile and resetting its account. */
module RecipientActions {
  import opened Wrappers
  import opened Schema
  import Text

  // ---------------------------------------------------------------------------------------------
  // updateRecipientProfile

  /** The `UpdateRecipientProfileParams` argument. */
  datatype ProfileUpdate = ProfileUpdate(
    recipientId: RecipientId, name: string, allowanceAmount: real, avatarUrl: Option<string>)

  /** The guards of `updateRecipientProfile`, in order: the two input checks come before the
    * store is read. */
  function UpdateCheck(recipients: seq<Recipient>, user: Option<UserId>, p: ProfileUpdate): (e: Option<Error>)
    ensures user.None? ==> e == Some(NotAuthenticated)
    ensures user.Some? && (p.recipientId == "" || Text.Trim(p.name) == "") ==> e == Some(MissingIdOrName)
    ensures user.Some? && p.recipientId != "" && Text.Trim(p.name) != "" && p.allowanceAmount <= 0.0 ==>
      e == Some(NonPositiveAllowance)
    ensures && user.Some? && p.recipientId != "" && Text.Trim(p.name) != "" && p.allowanceAmount > 0.0
            && !Owns(recipients, user.value, p.recipientId, true) ==>
      e == Some(RecipientNotFound)
    ensures e.None? <==>
      && user.Some? && p.recipientId != "" && Text.Trim(p.name) != "" && p.allowanceAmount > 0.0
      && Owns(recipients, user.value, p.recipientId, true)
  {
    if user.None? then Some(NotAuthenticated)
    else if p.recipientId == "" || Text.Trim(p.name) == "" then Some(MissingIdOrName)
    else if p.allowanceAmount <= 0.0 then Some(NonPositiveAllowance)
    else if !Owns(recipients, user.value, p.recipientId, true) then Some(RecipientNotFound)
    else None
  }

  /** The row after the update: trimmed name, new allowance, an empty or absent avatar stored
    * as null, and the update time. */
  function UpdatedRecipient(rec: Recipient, p: ProfileUpdate, now: int): (r: Recipient)
    ensures r.id == rec.id && r.managerId == rec.managerId
    ensures r.name == Text.Trim(p.name)
    ensures r.isActive == rec.isActive && r.isArchived == rec.isArchived && r.createdAt == rec.createdAt
    ensures r.allowance == p.allowanceAmount && r.updatedAt == now
    ensures r.avatarUrl.None? <==> p.avatarUrl.None? || p.avatarUrl == Some("")
    ensures r.avatarUrl.Some? ==> r.avatarUrl == p.avatarUrl
  {
    rec.(name := Text.Trim(p.name), allowance := p.allowanceAmount,
         avatarUrl := Text.OrNull(p.avatarUrl), updatedAt := now)
  }

  /** `updateRecipientProfile(params)`. */
  method UpdateRecipientProfile(db: Db, user: Option<UserId>, p: ProfileUpdate, now: int)
    returns (r: Result<Recipient, Error>)
    requires db.Valid()
    modifies db`recipients
    ensures db.Valid()
    ensures r.Failure? ==>
      Some(r.error) == UpdateCheck(old(db.recipients), user, p) && db.recipients == old(db.recipients)
    ensures r.Success? ==>
      && UpdateCheck(old(db.recipients), user, p).None?
      && var k := FindRecipient(old(db.recipients), p.recipientId).value;
         && r.value == UpdatedRecipient(old(db.recipients)[k], p, now)
         && db.recipients == old(db.recipients)[k := r.value]
  {
    var check := UpdateCheck(db.recipients, user, p);
    if check.Some? {
      return Failure(check.value);
    }
    var k := FindRecipient(db.recipients, p.recipientId).value;
    var updated := UpdatedRecipient(db.recipients[k], p, now);
    db.recipients := db.recipients[k := updated];
    assert forall i :: 0 <= i < |db.recipients| ==> db.recipients[i].id == old(db.recipients)[i].id;
    r := Success(updated);
  }

  /** A stored profile always has a non-blank trimmed name and a positive allowance, and the
    * recipient stays active and owned by the same manager. */
  lemma UpdatedProfileIsValid(recipients: seq<Recipient>, user: Option<UserId>, p: ProfileUpdate, now: int)
    requires UpdateCheck(recipients, user, p).None?
    ensures var k := FindRecipient(recipients, p.recipientId).value;
      var r := UpdatedRecipient(recipients[k], p, now);
      && r.name == Text.Trim(p.name) && r.name != "" && Text.Trim(r.name) == r.name
      && r.allowance > 0.0
      && r.isActive && r.managerId == user.value
      && Owns(recipients[k := r], user.value, p.recipientId, true)
  {
    var k := FindRecipient(recipients, p.recipientId).value;
    var r := UpdatedRecipient(recipients[k], p, now);
    var rs := recipients[k := r];
    assert forall i :: 0 <= i < |rs| ==> rs[i].id == recipients[i].id;
    FindRecipientUnchangedIds(recipients, rs, p.recipientId);
    assert rs[k] == r;
    Text.TrimIdempotent(p.name);
  }

  /** Replacing rows without changing their ids keeps every lookup where it was. */
  lemma {:induction false} FindRecipientUnchangedIds(a: seq<Recipient>, b: seq<Recipient>, id: RecipientId)
    requires |a| == |b| && forall i :: 0 <= i < |a| ==> a[i].id == b[i].id
    ensures FindRecipient(a, id) == FindRecipient(b, id)
  {
    if a != [] {
      FindRecipientUnchangedIds(a[1..], b[1..], id);
    }
  }

  // ---------------------------------------------------------------------------------------------
  // resetRecipientAccount

  /** The four writes of a reset, in the order they run. */
  datatype ResetStep = Balances | Causes | Transactions | Distributions {
    function Order(): nat {
      match this
      case Balances => 0
      case Causes => 1
      case Transactions => 2
      case Distributions => 3
    }

    /** The error the action throws when this write fails; the two deletions append the store's
      * own message `storeMessage`, the two updates do not. */
    function FailureMessage(storeMessage: string): string {
      match this
      case Balances => "Failed to reset category balances"
      case Causes => "Failed to reset charitable causes"
      case Transactions => "Failed to clear transaction history: " + storeMessage
      case Distributions => "Failed to clear distributions: " + storeMessage
    }
  }

  /** Whether write `step` takes effect when the store fails at `failAt` (if anywhere): the writes
    * before the failing one are applied, the failing one and those after it are not. */
  predicate Applied(step: ResetStep, failAt: Option<ResetStep>) {
    failAt.None? || step.Order() < failAt.value.Order()
  }

  /** The guards of `resetRecipientAccount`, in order. */
  function ResetCheck(recipients: seq<Recipient>, user: Option<UserId>, rid: RecipientId): (e: Option<Error>)
    ensures user.None? ==> e == Some(NotAuthenticated)
    ensures user.Some? && rid == "" ==> e == Some(MissingRecipientId)
    ensures user.Some? && rid != "" && !Owns(recipients, user.value, rid, true) ==> e == Some(RecipientNotFound)
    ensures e.None? <==> user.Some? && rid != "" && Owns(recipients, user.value, rid, true)
  {
    if user.None? then Some(NotAuthenticated)
    else if rid == "" then Some(MissingRecipientId)
    else if !Owns(recipients, user.value, rid, true) then Some(RecipientNotFound)
    else None
  }

  /** Step 1: the category rows of `rid` get balance 0. */
  function ZeroBalances(rows: seq<CategoryRow>, rid: RecipientId, now: int): (r: seq<CategoryRow>)
    ensures |r| == |rows|
  {
    if rows == [] then []
    else
      var head := if rows[0].recipientId == rid then rows[0].(balance := 0.0, updatedAt := now) else rows[0];
      [head] + ZeroBalances(rows[1..], rid, now)
  }

  /** Step 2: the causes of `rid` are reopened with nothing allocated. */
  function ResetCauses(cs: seq<Cause>, rid: RecipientId, now: int): (r: seq<Cause>)
    ensures |r| == |cs|
  {
    if cs == [] then []
    else
      var head := if cs[0].recipientId == rid
        then cs[0].(current := 0.0, isCompleted := false, completedAt := None, updatedAt := now)
        else cs[0];
      [head] + ResetCauses(cs[1..], rid, now)
  }

  /** Step 3: the transactions of `rid` are deleted. */
  function DropTransactions(ts: seq<Transaction>, rid: RecipientId): (r: seq<Transaction>)
    ensures |r| <= |ts|
  {
    if ts == [] then []
    else (if ts[0].recipientId != rid then [ts[0]] else []) + DropTransactions(ts[1..], rid)
  }

  /** Step 4: the distributions of `rid` are deleted. */
  function DropDistributions(ds: seq<Distribution>, rid: RecipientId): (r: seq<Distribution>)
    ensures |r| <= |ds|
  {
    if ds == [] then []
    else (if ds[0].recipientId != rid then [ds[0]] else []) + DropDistributions(ds[1..], rid)
  }

  /** After step 1 every balance of `rid` is 0, in the same category; other rows are untouched. */
  lemma {:induction false} ZeroBalancesSpec(rows: seq<CategoryRow>, rid: RecipientId, now: int)
    ensures var r := ZeroBalances(rows, rid, now);
      forall i :: 0 <= i < |rows| ==>
        if rows[i].recipientId == rid
        then r[i].recipientId == rid && r[i].kind == rows[i].kind && r[i].balance == 0.0
        else r[i] == rows[i]
  {
    if rows != [] {
      ZeroBalancesSpec(rows[1..], rid, now);
      var r := ZeroBalances(rows, rid, now);
      assert forall i :: 1 <= i < |rows| ==> r[i] == ZeroBalances(rows[1..], rid, now)[i - 1];
    }
  }

  /** After step 2 every cause of `rid` is still there, with the same id, nothing allocated and
    * not completed; other causes are untouched. */
  lemma {:induction false} ResetCausesSpec(cs: seq<Cause>, rid: RecipientId, now: int)
    ensures var r := ResetCauses(cs, rid, now);
      forall i :: 0 <= i < |cs| ==>
        if cs[i].recipientId == rid
        then && r[i].id == cs[i].id && r[i].recipientId == rid && r[i].goal == cs[i].goal
             && r[i].current == 0.0 && !r[i].isCompleted && r[i].completedAt.None?
        else r[i] == cs[i]
  {
    if cs != [] {
      ResetCausesSpec(cs[1..], rid, now);
      var r := ResetCauses(cs, rid, now);
      assert forall i :: 1 <= i < |cs| ==> r[i] == ResetCauses(cs[1..], rid, now)[i - 1];
    }
  }

  /** After step 3 exactly the transactions of the other recipients remain. */
  lemma {:induction false} DropTransactionsSpec(ts: seq<Transaction>, rid: RecipientId)
    ensures forall t :: t in DropTransactions(ts, rid) <==> t in ts && t.recipientId != rid
  {
    if ts != [] {
      DropTransactionsSpec(ts[1..], rid);
      assert ts == [ts[0]] + ts[1..];
    }
  }

  /** After step 4 exactly the distributions of the other recipients remain. */
  lemma {:induction false} DropDistributionsSpec(ds: seq<Distribution>, rid: RecipientId)
    ensures forall d :: d in DropDistributions(ds, rid) <==> d in ds && d.recipientId != rid
  {
    if ds != [] {
      DropDistributionsSpec(ds[1..], rid);
      assert ds == [ds[0]] + ds[1..];
    }
  }

  /** The reset keeps the store's keys: cause ids stay unique, and every cause and distribution
    * id stays below the next id to be handed out. */
  lemma ResetKeepsKeys(cs: seq<Cause>, ds: seq<Distribution>, rid: RecipientId, now: int, nextId: RowId)
    requires CauseIdsUnique(cs) && (forall i :: 0 <= i < |cs| ==> cs[i].id < nextId)
    requires forall i :: 0 <= i < |ds| ==> ds[i].id < nextId
    ensures var r := ResetCauses(cs, rid, now); CauseIdsUnique(r) && forall i :: 0 <= i < |r| ==> r[i].id < nextId
    ensures var r := DropDistributions(ds, rid); forall i :: 0 <= i < |r| ==> r[i].id < nextId
  {
    ResetCausesSpec(cs, rid, now);
    DropDistributionsSpec(ds, rid);
    var r := DropDistributions(ds, rid);
    assert forall i :: 0 <= i < |r| ==> r[i] in ds;
  }

  /** The four writes of a reset, in order; the first one the store refuses (`failAt`) stops
    * them, and the writes before it stay applied. */
  method ApplyReset(db: Db, rid: RecipientId, failAt: Option<ResetStep>, now: int)
    requires db.Valid()
    modifies db`categories, db`causes, db`transactions, db`distributions
    ensures db.Valid()
    ensures db.categories == if Applied(Balances, failAt) then ZeroBalances(old(db.categories), rid, now) else old(db.categories)
    ensures db.causes == if Applied(Causes, failAt) then ResetCauses(old(db.causes), rid, now) else old(db.causes)
    ensures db.transactions == if Applied(Transactions, failAt) then DropTransactions(old(db.transactions), rid) else old(db.transactions)
    ensures db.distributions == if Applied(Distributions, failAt) then DropDistributions(old(db.distributions), rid) else old(db.distributions)
  {
    ResetKeepsKeys(db.causes, db.distributions, rid, now, db.nextId);
    if !Applied(Balances, failAt) {
      return;
    }
    db.categories := ZeroBalances(db.categories, rid, now);
    if !Applied(Causes, failAt) {
      return;
    }
    db.causes := ResetCauses(db.causes, rid, now);
    if !Applied(Transactions, failAt) {
      return;
    }
    db.transactions := DropTransactions(db.transactions, rid);
    if !Applied(Distributions, failAt) {
      return;
    }
    db.distributions := DropDistributions(db.distributions, rid);
  }

  /** `resetRecipientAccount(recipientId)`. `failAt` is the write the store reports an error
    * for, if any, and `storeMessage` the message of that error; the action stops there, and the
    * writes before it stay applied. */
  method ResetRecipientAccount(
    db: Db, user: Option<UserId>, rid: RecipientId, failAt: Option<ResetStep>, storeMessage: string, now: int)
    returns (r: Result<string, Error>)
    requires db.Valid()
    modifies db`categories, db`causes, db`transactions, db`distributions
    ensures db.Valid()
    ensures r.Success? <==> ResetCheck(db.recipients, user, rid).None? && failAt.None?
    ensures ResetCheck(db.recipients, user, rid).Some? ==>
      && r == Failure(ResetCheck(db.recipients, user, rid).value)
      && db.categories == old(db.categories) && db.causes == old(db.causes)
      && db.transactions == old(db.transactions) && db.distributions == old(db.distributions)
    ensures ResetCheck(db.recipients, user, rid).None? && failAt.Some? ==>
      r == Failure(StoreFailure(failAt.value.FailureMessage(storeMessage)))
    ensures r.Success? ==>
      r.value == db.recipients[FindRecipient(db.recipients, rid).value].name + "'s account has been reset"
    ensures ResetCheck(db.recipients, user, rid).None? ==>
      db.categories == if Applied(Balances, failAt) then ZeroBalances(old(db.categories), rid, now) else old(db.categories)
    ensures ResetCheck(db.recipients, user, rid).None? ==>
      db.causes == if Applied(Causes, failAt) then ResetCauses(old(db.causes), rid, now) else old(db.causes)
    ensures ResetCheck(db.recipients, user, rid).None? ==>
      db.transactions == if Applied(Transactions, failAt) then DropTransactions(old(db.transactions), rid) else old(db.transactions)
    ensures ResetCheck(db.recipients, user, rid).None? ==>
      db.distributions == if Applied(Distributions, failAt) then DropDistributions(old(db.distributions), rid) else old(db.distributions)
  {
    var check := ResetCheck(db.recipients, user, rid);
    if check.Some? {
      return Failure(check.value);
    }
    ApplyReset(db, rid, failAt, now);
    if failAt.Some? {
      return Failure(StoreFailure(failAt.value.FailureMessage(storeMessage)));
    }
    var name := db.recipients[FindRecipient(db.recipients, rid).value].name;
    r := Success(name + "'s account has been reset");
  }
}
