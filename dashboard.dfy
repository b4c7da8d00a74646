/** The dashboard page: the manager's listed recipients, each with its category balances folded
  * into a `{ give, spend, save, invest }` record. */
module Dashboard {
  import opened Wrappers
  import opened Schema
  import opened Query

  /** A recipient as the page hands it on: the row's own fields and the folded balances. */
  datatype RecipientView = RecipientView(recipient: Recipient, categories: Amounts)

  /** The recipients the page lists: the manager's, active and not archived. */
  predicate Listed(r: Recipient, user: UserId) {
    r.managerId == user && r.isActive && !r.isArchived
  }

  /** The rows the recipients query keeps, in table order. */
  function ListedOf(rs: seq<Recipient>, user: UserId): (r: seq<Recipient>)
    ensures forall i :: 0 <= i < |r| ==> Listed(r[i], user)
    ensures forall x :: x in rs && Listed(x, user) ==> x in r
    ensures multiset(r) <= multiset(rs)
  {
    if rs == [] then []
    else
      assert rs == [rs[0]] + rs[1..];
      (if Listed(rs[0], user) then [rs[0]] else []) + ListedOf(rs[1..], user)
  }

  /** `.order('created_at', { ascending: true })` */
  predicate CreatedNoLater(a: Recipient, b: Recipient) {
    a.createdAt <= b.createdAt
  }

  /** The recipients query: the listed recipients, oldest first. */
  function ListedRecipients(rs: seq<Recipient>, user: UserId): (r: seq<Recipient>)
    ensures multiset(r) == multiset(ListedOf(rs, user))
    ensures SortedBy(r, CreatedNoLater)
  {
    SortBySorted(ListedOf(rs, user), CreatedNoLater);
    SortBy(ListedOf(rs, user), CreatedNoLater)
  }

  /** The rows the query embeds under a recipient: its `allowance_categories`. */
  function RowsFor(rows: seq<CategoryRow>, rid: RecipientId): seq<CategoryRow> {
    if rows == [] then [] else (if rows[0].recipientId == rid then [rows[0]] else []) + RowsFor(rows[1..], rid)
  }

  /** The balance a category ends with after the rows are written in order: that of its last row,
    * or the default 0 when it has none. */
  function LastBalance(rows: seq<CategoryRow>, c: Category): real {
    if rows == [] then 0.0
    else if rows[|rows| - 1].kind == c then rows[|rows| - 1].balance
    else LastBalance(rows[..|rows| - 1], c)
  }

  /** A category without rows keeps the default 0. */
  lemma {:induction false} NoRowKeepsZero(rows: seq<CategoryRow>, c: Category)
    requires forall i :: 0 <= i < |rows| ==> rows[i].kind != c
    ensures LastBalance(rows, c) == 0.0
  {
    if rows != [] {
      NoRowKeepsZero(rows[..|rows| - 1], c);
    }
  }

  /** The last row of a category wins over every earlier one. */
  lemma {:induction false} LastRowWins(rows: seq<CategoryRow>, c: Category, k: nat)
    requires k < |rows| && rows[k].kind == c
    requires forall j :: k < j < |rows| ==> rows[j].kind != c
    ensures LastBalance(rows, c) == rows[k].balance
  {
    if k < |rows| - 1 {
      LastRowWins(rows[..|rows| - 1], c, k);
    }
  }

  /** The `forEach` of one recipient: the record starts at all zeros and each row writes its
    * balance under its category. */
  method CategoryRecord(rows: seq<CategoryRow>) returns (categories: Amounts)
    ensures forall c :: categories.Get(c) == LastBalance(rows, c)
  {
    categories := Amounts(0.0, 0.0, 0.0, 0.0);
    var i := 0;
    while i < |rows|
      invariant 0 <= i <= |rows|
      invariant forall c :: categories.Get(c) == LastBalance(rows[..i], c)
    {
      categories := categories.With(rows[i].kind, rows[i].balance);
      assert rows[..i + 1][..i] == rows[..i];
      i := i + 1;
    }
    assert rows[..i] == rows;
  }

  /** The page's data. With no user the page redirects to the login page (`None`); a failed query
    * yields no recipients; otherwise every listed recipient keeps its fields and gets its folded
    * balances. */
  method LoadDashboard(recipients: seq<Recipient>, rows: seq<CategoryRow>, user: Option<UserId>, queryFails: bool)
    returns (page: Option<seq<RecipientView>>)
    ensures page.None? <==> user.None?
    ensures user.Some? && queryFails ==> page == Some([])
    ensures user.Some? && !queryFails ==>
      var listed := ListedRecipients(recipients, user.value);
      && |page.value| == |listed|
      && forall i :: 0 <= i < |listed| ==>
        && page.value[i].recipient == listed[i]
        && forall c :: page.value[i].categories.Get(c) == LastBalance(RowsFor(rows, listed[i].id), c)
  {
    if user.None? {
      return None;
    }
    if queryFails {
      return Some([]);
    }
    var listed := ListedRecipients(recipients, user.value);
    var views: seq<RecipientView> := [];
    var i := 0;
    while i < |listed|
      invariant 0 <= i <= |listed|
      invariant |views| == i
      invariant forall k :: 0 <= k < i ==>
        && views[k].recipient == listed[k]
        && forall c :: views[k].categories.Get(c) == LastBalance(RowsFor(rows, listed[k].id), c)
    {
      var categories := CategoryRecord(RowsFor(rows, listed[i].id));
      views := views + [RecipientView(listed[i], categories)];
      i := i + 1;
    }
    page := Some(views);
  }
}
