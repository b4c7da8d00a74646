/** The tables of the hosted database, kept in memory: recipients, their category balances
  * (`allowance_categories`), charitable causes, distributions and transactions. */
module Schema {
  import opened Wrappers

  /** The authenticated manager's id, as the auth provider reports it. */
  type UserId = string
  type RecipientId = string
  /** Ids the store generates for rows it inserts. */
  type RowId = nat

  /** Milliseconds in a day and in a week. */
  const MsPerDay: int := 1000 * 60 * 60 * 24
  const MsPerWeek: int := MsPerDay * 7

  /** The four fixed categories of every recipient (`category_type`). */
  datatype Category = Give | Spend | Save | Invest

  /** One amount per category: the `{ give, spend, save, invest }` records of the client and
    * the four per-category columns of a distribution. */
  datatype Amounts = Amounts(give: real, spend: real, save: real, invest: real) {
    function Get(c: Category): real {
      match c
      case Give => give
      case Spend => spend
      case Save => save
      case Invest => invest
    }

    /** `{ ...this, [c]: v }` */
    function With(c: Category, v: real): (r: Amounts)
      ensures r.Get(c) == v
      ensures forall d :: d != c ==> r.Get(d) == Get(d)
    {
      match c
      case Give => this.(give := v)
      case Spend => this.(spend := v)
      case Save => this.(save := v)
      case Invest => this.(invest := v)
    }

    function Total(): real {
      give + spend + save + invest
    }
  }

  const NoAmounts := Amounts(0.0, 0.0, 0.0, 0.0)

  /** A row of `recipients`. */
  datatype Recipient = Recipient(
    id: RecipientId, managerId: UserId, name: string, allowance: real,
    avatarUrl: Option<string>, isActive: bool, isArchived: bool,
    createdAt: int, updatedAt: int)

  /** A row of `allowance_categories`. */
  datatype CategoryRow = CategoryRow(recipientId: RecipientId, kind: Category, balance: real, updatedAt: int)

  /** A row of `charitable_causes`; `current` is `current_amount`, `goal` is `goal_amount`. */
  datatype Cause = Cause(
    id: RowId, recipientId: RecipientId, name: string, description: Option<string>,
    goal: real, current: real, dueDate: Option<string>,
    isCompleted: bool, completedAt: Option<int>, createdAt: int, updatedAt: int)

  /** A row of `distributions`; `day` is `distribution_date`, a calendar day counted from the epoch. */
  datatype Distribution = Distribution(
    id: RowId, recipientId: RecipientId, managerId: UserId, day: int,
    total: real, amounts: Amounts, notes: Option<string>)

  /** A row of `transactions`; `kind` is `transaction_type` and `date` is `transaction_date`. */
  datatype Transaction = Transaction(
    id: RowId, recipientId: RecipientId, category: Category, kind: string,
    amount: real, balanceAfter: real, description: Option<string>,
    date: int, createdAt: int)

  /** The errors the server actions throw, one per kind of failure; where two actions word the
    * same failure differently, the comment lists both messages. */
  datatype Error =
    | NotAuthenticated          // 'Not authenticated', 'Authentication required'
    | RecipientNotFound         // 'Recipient not found or access denied', 'Recipient not found'
    | CauseNotFound             // 'Charitable cause not found or access denied'
    | MaxActiveCausesReached    // 'Maximum of 3 active causes allowed per recipient'
    | AlreadyCompleted          // 'This cause has already been completed'
    | InsufficientGiveFunds     // 'Insufficient funds in Give category'
    | GiveBalanceUnavailable    // 'Failed to fetch Give category balance'
    | GoalExceeded              // 'Allocation exceeds the goal amount'
    | InsufficientUnallocated   // 'Insufficient unallocated funds'
    | NonPositiveTotal          // 'Distribution amount must be greater than zero'
    | NegativeComponent         // 'Individual category amounts cannot be negative'
    | MissingIdOrName           // 'Recipient ID and name are required'
    | NonPositiveAllowance      // 'Allowance amount must be greater than 0'
    | MissingRecipientId        // 'Recipient ID is required'
    | StoreFailure(message: string)  // a failed reset write (the only store error modelled), with its message

  predicate RecipientIdsUnique(rs: seq<Recipient>) {
    forall i, j :: 0 <= i < j < |rs| ==> rs[i].id != rs[j].id
  }

  predicate CauseIdsUnique(cs: seq<Cause>) {
    forall i, j :: 0 <= i < j < |cs| ==> cs[i].id != cs[j].id
  }

  /** The index of the recipient row with id `id`, if there is one. */
  function FindRecipient(rs: seq<Recipient>, id: RecipientId): (k: Option<nat>)
    ensures k.Some? ==> k.value < |rs| && rs[k.value].id == id
    ensures k.None? ==> forall i :: 0 <= i < |rs| ==> rs[i].id != id
  {
    if rs == [] then None
    else if rs[0].id == id then Some(0)
    else match FindRecipient(rs[1..], id)
      case Some(k) => Some(k + 1)
      case None => None
  }

  /** The index of the cause row with id `id`, if there is one. */
  function FindCause(cs: seq<Cause>, id: RowId): (k: Option<nat>)
    ensures k.Some? ==> k.value < |cs| && cs[k.value].id == id
    ensures k.None? ==> forall i :: 0 <= i < |cs| ==> cs[i].id != id
  {
    if cs == [] then None
    else if cs[0].id == id then Some(0)
    else match FindCause(cs[1..], id)
      case Some(k) => Some(k + 1)
      case None => None
  }

  /** The ownership filter of the actions: a recipient row with id `id`, managed by `user`,
    * and active when `activeOnly` (`.eq('is_active', true)`). */
  predicate Owns(rs: seq<Recipient>, user: UserId, id: RecipientId, activeOnly: bool) {
    var k := FindRecipient(rs, id);
    k.Some? && rs[k.value].managerId == user && (activeOnly ==> rs[k.value].isActive)
  }

  /** Under unique ids, ownership is the existence of a matching row. */
  lemma OwnsIffRow(rs: seq<Recipient>, user: UserId, id: RecipientId, activeOnly: bool)
    requires RecipientIdsUnique(rs)
    ensures Owns(rs, user, id, activeOnly) <==>
      exists i :: 0 <= i < |rs| && rs[i].id == id && rs[i].managerId == user && (activeOnly ==> rs[i].isActive)
  {
    var k := FindRecipient(rs, id);
    if exists i :: 0 <= i < |rs| && rs[i].id == id && rs[i].managerId == user && (activeOnly ==> rs[i].isActive) {
      var i :| 0 <= i < |rs| && rs[i].id == id && rs[i].managerId == user && (activeOnly ==> rs[i].isActive);
      assert k.Some?;
      assert k.value == i;
    }
  }

  /** The in-memory store. Row ids are primary keys; `nextId` is the next id the store hands out
    * to an inserted cause or distribution. */
  class Db {
    var recipients: seq<Recipient>
    var categories: seq<CategoryRow>
    var causes: seq<Cause>
    var distributions: seq<Distribution>
    var transactions: seq<Transaction>
    var nextId: RowId

    ghost predicate Valid()
      reads this
    {
      && RecipientIdsUnique(recipients)
      && CauseIdsUnique(causes)
      && (forall i :: 0 <= i < |causes| ==> causes[i].id < nextId)
      && (forall i :: 0 <= i < |distributions| ==> distributions[i].id < nextId)
    }

    constructor (recipients: seq<Recipient>, categories: seq<CategoryRow>)
      requires RecipientIdsUnique(recipients)
      ensures Valid()
      ensures this.recipients == recipients && this.categories == categories
      ensures causes == [] && distributions == [] && transactions == []
    {
      this.recipients := recipients;
      this.categories := categories;
      causes := [];
      distributions := [];
      transactions := [];
      nextId := 0;
    }
  }
}
