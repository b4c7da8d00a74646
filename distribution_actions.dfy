/** The distribution server actions: recording an allowance split into the four categories,
  * listing distributions and transactions, and the allowance still owed to a recipient. */
module DistributionActions {
  import opened Wrappers
  import opened Schema
  import opened Query

  /** The `DistributionData` argument; `date` is the chosen instant in milliseconds. */
  datatype DistributionData = DistributionData(
    recipientId: RecipientId, date: int, amounts: Amounts, notes: Option<string>)

  /** `date.toISOString().split('T')[0]`: the UTC calendar day of an instant. */
  function DayOf(date: int): (day: int)
    ensures day * MsPerDay <= date < (day + 1) * MsPerDay
  {
    date / MsPerDay
  }

  /** The guards of `distributeAllowance`, in the order it runs them: the total is checked
    * before the components, so a negative total is reported as such. */
  function DistributeCheck(recipients: seq<Recipient>, user: Option<UserId>, data: DistributionData)
    : (e: Option<Error>)
    ensures e.None? <==>
      && user.Some? && Owns(recipients, user.value, data.recipientId, true)
      && data.amounts.Total() > 0.0
      && forall c :: data.amounts.Get(c) >= 0.0
    ensures user.None? ==> e == Some(NotAuthenticated)
    ensures user.Some? && !Owns(recipients, user.value, data.recipientId, true) ==> e == Some(RecipientNotFound)
    ensures user.Some? && Owns(recipients, user.value, data.recipientId, true) && data.amounts.Total() <= 0.0 ==>
      e == Some(NonPositiveTotal)
    ensures && user.Some? && Owns(recipients, user.value, data.recipientId, true) && data.amounts.Total() > 0.0
            && (exists c :: data.amounts.Get(c) < 0.0) ==>
      e == Some(NegativeComponent)
  {
    var a := data.amounts;
    if user.None? then Some(NotAuthenticated)
    else if !Owns(recipients, user.value, data.recipientId, true) then Some(RecipientNotFound)
    else if a.Total() <= 0.0 then Some(NonPositiveTotal)
    else if a.give < 0.0 || a.spend < 0.0 || a.save < 0.0 || a.invest < 0.0 then
      assert a.Get(Give) < 0.0 || a.Get(Spend) < 0.0 || a.Get(Save) < 0.0 || a.Get(Invest) < 0.0;
      Some(NegativeComponent)
    else None
  }

  /** The row `distributeAllowance` inserts. */
  function NewDistribution(id: RowId, user: UserId, data: DistributionData): (d: Distribution)
    ensures d.total == d.amounts.give + d.amounts.spend + d.amounts.save + d.amounts.invest
    ensures d.amounts == data.amounts && d.recipientId == data.recipientId && d.managerId == user
    ensures d.day * MsPerDay <= data.date < (d.day + 1) * MsPerDay
  {
    Distribution(id, data.recipientId, user, DayOf(data.date), data.amounts.Total(), data.amounts, data.notes)
  }

  /** Every recorded distribution is positive and splits into non-negative parts, each at most
    * the total. */
  lemma AcceptedDistributionIsSound(recipients: seq<Recipient>, user: Option<UserId>, data: DistributionData, id: RowId)
    requires DistributeCheck(recipients, user, data).None?
    ensures var d := NewDistribution(id, user.value, data);
      d.total > 0.0 && forall c :: 0.0 <= d.amounts.Get(c) <= d.total
  {
    var a := data.amounts;
    assert a.Get(Give) >= 0.0 && a.Get(Spend) >= 0.0 && a.Get(Save) >= 0.0 && a.Get(Invest) >= 0.0;
  }

  /** A negative part is refused, but as a non-positive total when it drags the total to zero
    * or below. */
  lemma DistributeCheckOrder(recipients: seq<Recipient>, user: UserId, rid: RecipientId)
    requires Owns(recipients, user, rid, true)
    ensures DistributeCheck(recipients, Some(user), DistributionData(rid, 0, Amounts(-5.0, 10.0, 0.0, 0.0), None))
      == Some(NegativeComponent)
    ensures DistributeCheck(recipients, Some(user), DistributionData(rid, 0, Amounts(-10.0, 5.0, 0.0, 0.0), None))
      == Some(NonPositiveTotal)
  {
  }

  /** `distributeAllowance(data)`. The balance and transaction updates the store's triggers make
    * on insert are not part of this model. */
  method DistributeAllowance(db: Db, user: Option<UserId>, data: DistributionData)
    returns (r: Result<Distribution, Error>)
    requires db.Valid()
    modifies db`distributions, db`nextId
    ensures db.Valid()
    ensures r.Failure? ==>
      && Some(r.error) == DistributeCheck(db.recipients, user, data)
      && db.distributions == old(db.distributions) && db.nextId == old(db.nextId)
    ensures r.Success? ==>
      && DistributeCheck(db.recipients, user, data).None?
      && r.value == NewDistribution(old(db.nextId), user.value, data)
      && db.distributions == old(db.distributions) + [r.value]
  {
    var check := DistributeCheck(db.recipients, user, data);
    if check.Some? {
      return Failure(check.value);
    }
    var d := NewDistribution(db.nextId, user.value, data);
    db.distributions := db.distributions + [d];
    db.nextId := db.nextId + 1;
    r := Success(d);
  }

  // ---------------------------------------------------------------------------------------------
  // getRecipientDistributions

  /** The distributions of `rid` recorded by `manager`, in table order. */
  function DistributionsOf(ds: seq<Distribution>, rid: RecipientId, manager: UserId): (r: seq<Distribution>)
    ensures forall i :: 0 <= i < |r| ==> r[i].recipientId == rid && r[i].managerId == manager
    ensures forall d :: d in ds && d.recipientId == rid && d.managerId == manager ==> d in r
    ensures multiset(r) <= multiset(ds)
  {
    if ds == [] then []
    else
      assert ds == [ds[0]] + ds[1..];
      (if ds[0].recipientId == rid && ds[0].managerId == manager then [ds[0]] else []) + DistributionsOf(ds[1..], rid, manager)
  }

  /** `.order('distribution_date', { ascending: false })` */
  predicate DayNoEarlier(a: Distribution, b: Distribution) {
    a.day >= b.day
  }

  /** `getRecipientDistributions(recipientId)`: the caller's distributions to the recipient,
    * latest day first. There is no ownership check: a foreign recipient yields no rows. */
  function GetRecipientDistributions(ds: seq<Distribution>, user: Option<UserId>, rid: RecipientId)
    : (r: Result<seq<Distribution>, Error>)
    ensures r.Failure? <==> user.None?
    ensures r.Failure? ==> r.error == NotAuthenticated
    ensures r.Success? ==> multiset(r.value) == multiset(DistributionsOf(ds, rid, user.value))
    ensures r.Success? ==> SortedBy(r.value, DayNoEarlier)
  {
    if user.None? then Failure(NotAuthenticated)
    else
      assert TotalPreorder(DayNoEarlier);
      SortBySorted(DistributionsOf(ds, rid, user.value), DayNoEarlier);
      Success(SortBy(DistributionsOf(ds, rid, user.value), DayNoEarlier))
  }

  /** Only the caller's own rows are listed, whoever manages the recipient. */
  lemma ListedDistributionsAreOwn(ds: seq<Distribution>, user: UserId, rid: RecipientId)
    ensures var listed := GetRecipientDistributions(ds, Some(user), rid).value;
      forall d :: d in listed <==> d in ds && d.recipientId == rid && d.managerId == user
  {
    var listed := GetRecipientDistributions(ds, Some(user), rid).value;
    forall d ensures d in listed <==> d in ds && d.recipientId == rid && d.managerId == user {
      assert d in listed <==> d in multiset(listed);
      assert d in DistributionsOf(ds, rid, user) <==> d in multiset(DistributionsOf(ds, rid, user));
    }
  }

  // ---------------------------------------------------------------------------------------------
  // getRecipientTransactions

  /** The default `limit` of `getRecipientTransactions`. */
  const DefaultTransactionLimit: nat := 50

  /** The transactions of `rid`, in table order. */
  function TransactionsOf(ts: seq<Transaction>, rid: RecipientId): (r: seq<Transaction>)
    ensures forall i :: 0 <= i < |r| ==> r[i].recipientId == rid
    ensures forall t :: t in ts && t.recipientId == rid ==> t in r
    ensures multiset(r) <= multiset(ts)
  {
    if ts == [] then []
    else
      assert ts == [ts[0]] + ts[1..];
      (if ts[0].recipientId == rid then [ts[0]] else []) + TransactionsOf(ts[1..], rid)
  }

  /** `.order('transaction_date', desc).order('created_at', desc)` */
  predicate NewerFirst(a: Transaction, b: Transaction) {
    a.date > b.date || (a.date == b.date && a.createdAt >= b.createdAt)
  }

  /** `getRecipientTransactions(recipientId, limit)`: the recipient's `limit` newest transactions,
    * newest first. The recipient must be the caller's, active or not. */
  function GetRecipientTransactions(
    recipients: seq<Recipient>, ts: seq<Transaction>, user: Option<UserId>, rid: RecipientId, limit: nat)
    : (r: Result<seq<Transaction>, Error>)
    ensures user.None? ==> r == Failure(NotAuthenticated)
    ensures user.Some? && !Owns(recipients, user.value, rid, false) ==> r == Failure(RecipientNotFound)
    ensures user.Some? && Owns(recipients, user.value, rid, false) ==> r.Success?
    ensures r.Success? ==> |r.value| == if limit < |TransactionsOf(ts, rid)| then limit else |TransactionsOf(ts, rid)|
    ensures r.Success? ==> exists sorted ::
      && multiset(sorted) == multiset(TransactionsOf(ts, rid))
      && SortedBy(sorted, NewerFirst)
      && r.value == sorted[..|r.value|]
  {
    if user.None? then Failure(NotAuthenticated)
    else if !Owns(recipients, user.value, rid, false) then Failure(RecipientNotFound)
    else
      var sorted := SortBy(TransactionsOf(ts, rid), NewerFirst);
      assert TotalPreorder(NewerFirst);
      SortBySorted(TransactionsOf(ts, rid), NewerFirst);
      var page := Take(sorted, limit);
      assert page == sorted[..|page|];
      Success(page)
  }

  /** Every listed transaction is the recipient's, and none left out is newer than one listed. */
  lemma TransactionPageIsNewest(
    recipients: seq<Recipient>, ts: seq<Transaction>, user: UserId, rid: RecipientId, limit: nat)
    requires Owns(recipients, user, rid, false)
    ensures var page := GetRecipientTransactions(recipients, ts, Some(user), rid, limit).value;
      && (forall t :: t in page ==> t in ts && t.recipientId == rid)
      && (forall t :: t in ts && t.recipientId == rid && t !in page ==>
            forall p :: p in page ==> NewerFirst(p, t))
  {
    var page := GetRecipientTransactions(recipients, ts, Some(user), rid, limit).value;
    var sorted :| && multiset(sorted) == multiset(TransactionsOf(ts, rid))
                  && SortedBy(sorted, NewerFirst) && page == sorted[..|page|];
    forall t | t in page ensures t in ts && t.recipientId == rid {
      assert t in sorted;
      assert t in multiset(TransactionsOf(ts, rid));
    }
    forall t, p | t in ts && t.recipientId == rid && t !in page && p in page ensures NewerFirst(p, t) {
      assert t in multiset(sorted);
      SortedPrefixPrecedes(sorted, |page|, p, t, NewerFirst);
    }
  }

  // ---------------------------------------------------------------------------------------------
  // calculateUndistributedAllowance

  /** Σ `total_amount` over the distributions of `rid` recorded by `manager`. */
  function DistributedTotal(ds: seq<Distribution>, rid: RecipientId, manager: UserId): real {
    if ds == [] then 0.0
    else (if ds[0].recipientId == rid && ds[0].managerId == manager then ds[0].total else 0.0)
         + DistributedTotal(ds[1..], rid, manager)
  }

  lemma {:induction false} DistributedTotalAppend(ds: seq<Distribution>, d: Distribution, rid: RecipientId, manager: UserId)
    ensures DistributedTotal(ds + [d], rid, manager) ==
      DistributedTotal(ds, rid, manager) + (if d.recipientId == rid && d.managerId == manager then d.total else 0.0)
  {
    if ds != [] {
      assert (ds + [d])[1..] == ds[1..] + [d];
      DistributedTotalAppend(ds[1..], d, rid, manager);
    }
  }

  lemma {:induction false} DistributedTotalNone(ds: seq<Distribution>, rid: RecipientId, manager: UserId)
    requires forall i :: 0 <= i < |ds| ==> ds[i].recipientId != rid || ds[i].managerId != manager
    ensures DistributedTotal(ds, rid, manager) == 0.0
  {
    if ds != [] {
      DistributedTotalNone(ds[1..], rid, manager);
    }
  }

  datatype Undistributed = Undistributed(
    undistributedAmount: real, totalDistributed: real, totalAllowanceOwed: real,
    weeksSinceCreated: int, weeklyAllowance: real)

  /** `calculateUndistributedAllowance(recipientId)` at instant `now`: whole weeks since the
    * recipient was created times the weekly allowance, less what the caller distributed to it,
    * and never below zero. */
  function CalculateUndistributedAllowance(
    recipients: seq<Recipient>, ds: seq<Distribution>, user: Option<UserId>, rid: RecipientId, now: int)
    : (r: Result<Undistributed, Error>)
    ensures user.None? ==> r == Failure(NotAuthenticated)
    ensures user.Some? ==> (r.Success? <==> Owns(recipients, user.value, rid, false))
    ensures r.Failure? && user.Some? ==> r.error == RecipientNotFound
    ensures r.Success? ==>
      var rec := recipients[FindRecipient(recipients, rid).value];
      var u := r.value;
      && u.weeksSinceCreated * MsPerWeek <= now - rec.createdAt < (u.weeksSinceCreated + 1) * MsPerWeek
      && u.weeklyAllowance == rec.allowance
      && u.totalAllowanceOwed == u.weeksSinceCreated as real * rec.allowance
      && u.totalDistributed == DistributedTotal(ds, rid, user.value)
      && u.undistributedAmount >= 0.0
      && u.undistributedAmount >= u.totalAllowanceOwed - u.totalDistributed
      && (u.undistributedAmount == 0.0 || u.undistributedAmount == u.totalAllowanceOwed - u.totalDistributed)
  {
    if user.None? then Failure(NotAuthenticated)
    else if !Owns(recipients, user.value, rid, false) then Failure(RecipientNotFound)
    else
      var rec := recipients[FindRecipient(recipients, rid).value];
      var distributed := DistributedTotal(ds, rid, user.value);
      var weeks := (now - rec.createdAt) / MsPerWeek;
      var owed := weeks as real * rec.allowance;
      var pending := if owed - distributed > 0.0 then owed - distributed else 0.0;
      Success(Undistributed(pending, distributed, owed, weeks, rec.allowance))
  }

  /** Recording a distribution raises the distributed total by its amount and never raises what
    * is still owed. */
  lemma DistributionLowersUndistributed(
    recipients: seq<Recipient>, ds: seq<Distribution>, user: UserId, data: DistributionData, id: RowId, now: int)
    requires DistributeCheck(recipients, Some(user), data).None?
    ensures var d := NewDistribution(id, user, data);
      var before := CalculateUndistributedAllowance(recipients, ds, Some(user), data.recipientId, now);
      var after := CalculateUndistributedAllowance(recipients, ds + [d], Some(user), data.recipientId, now);
      && before.Success? && after.Success?
      && after.value.totalDistributed == before.value.totalDistributed + d.total
      && after.value.undistributedAmount <= before.value.undistributedAmount
  {
    DistributedTotalAppend(ds, NewDistribution(id, user, data), data.recipientId, user);
    AcceptedDistributionIsSound(recipients, Some(user), data, id);
  }

  /** Before the first full week nothing is owed, so nothing is undistributed. */
  lemma NothingOwedInFirstWeek(recipients: seq<Recipient>, ds: seq<Distribution>, user: UserId, rid: RecipientId, now: int)
    requires CalculateUndistributedAllowance(recipients, ds, Some(user), rid, now).Success?
    requires forall i :: 0 <= i < |ds| ==> ds[i].recipientId != rid || ds[i].managerId != user
    requires var rec := recipients[FindRecipient(recipients, rid).value];
      rec.createdAt <= now < rec.createdAt + MsPerWeek
    ensures var u := CalculateUndistributedAllowance(recipients, ds, Some(user), rid, now).value;
      u.weeksSinceCreated == 0 && u.totalDistributed == 0.0 && u.undistributedAmount == 0.0
  {
    DistributedTotalNone(ds, rid, user);
  }

  /** A recipient created 21 days ago with a weekly allowance of 10, who was given 25, is owed 5. */
  lemma UndistributedExample()
    ensures var rs := [Recipient("r", "m", "Ada", 10.0, None, true, false, 0, 0)];
      var ds := [Distribution(1, "r", "m", 3, 25.0, Amounts(5.0, 10.0, 10.0, 0.0), None)];
      CalculateUndistributedAllowance(rs, ds, Some("m"), "r", 21 * MsPerDay)
        == Success(Undistributed(5.0, 25.0, 30.0, 3, 10.0))
  {
    var ds := [Distribution(1, "r", "m", 3, 25.0, Amounts(5.0, 10.0, 10.0, 0.0), None)];
    assert DistributedTotal(ds, "r", "m") == 25.0 + DistributedTotal([], "r", "m");
  }
}
