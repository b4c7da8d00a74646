/** A category's transaction history: the recipient's latest transactions narrowed to one
  * category, and how each is labelled and coloured. */
module TransactionHistory {
  import opened Wrappers
  import opened Schema
  import opened Query
  import DistributionActions

  /** The number of transactions the history requests. */
  const FetchLimit: nat := 50

  /** `allTransactions.filter(t => t.category_type === categoryType)`. */
  function OfCategory(ts: seq<Transaction>, c: Category): seq<Transaction> {
    if ts == [] then [] else (if ts[0].category == c then [ts[0]] else []) + OfCategory(ts[1..], c)
  }

  /** The filter keeps exactly the transactions of the category, in their fetched order. */
  lemma {:induction false} OfCategorySpec(ts: seq<Transaction>, c: Category)
    ensures forall i :: 0 <= i < |OfCategory(ts, c)| ==> OfCategory(ts, c)[i].category == c
    ensures forall t :: t in ts && t.category == c <==> t in OfCategory(ts, c)
    ensures |OfCategory(ts, c)| <= |ts|
  {
    if ts != [] {
      OfCategorySpec(ts[1..], c);
      assert ts == [ts[0]] + ts[1..];
    }
  }

  lemma {:induction false} OfCategoryKeepsOrder(a: seq<Transaction>, b: seq<Transaction>, c: Category)
    ensures OfCategory(a + b, c) == OfCategory(a, c) + OfCategory(b, c)
  {
    if a == [] {
      assert a + b == b;
    } else {
      var head := if a[0].category == c then [a[0]] else [];
      assert OfCategory(a + b, c) == head + OfCategory(a[1..] + b, c) by {
        assert (a + b)[0] == a[0];
        assert (a + b)[1..] == a[1..] + b;
      }
      assert OfCategory(a[1..] + b, c) == OfCategory(a[1..], c) + OfCategory(b, c) by {
        OfCategoryKeepsOrder(a[1..], b, c);
      }
      assert head + (OfCategory(a[1..], c) + OfCategory(b, c)) == (head + OfCategory(a[1..], c)) + OfCategory(b, c);
    }
  }

  /** What the history shows after fetching: at most 50 transactions, each the recipient's and of
    * the tab's category. A category's transactions older than the recipient's 50 latest of any
    * category are not shown. */
  lemma ShownAreOwnAndOfCategory(
    recipients: seq<Recipient>, ts: seq<Transaction>, user: UserId, rid: RecipientId, c: Category)
    requires DistributionActions.GetRecipientTransactions(recipients, ts, Some(user), rid, FetchLimit).Success?
    ensures var page := DistributionActions.GetRecipientTransactions(recipients, ts, Some(user), rid, FetchLimit).value;
      var shown := OfCategory(page, c);
      && |shown| <= FetchLimit
      && forall i :: 0 <= i < |shown| ==> shown[i].recipientId == rid && shown[i].category == c
  {
    var page := DistributionActions.GetRecipientTransactions(recipients, ts, Some(user), rid, FetchLimit).value;
    assert |page| <= FetchLimit && forall t :: t in page ==> t.recipientId == rid by {
      DistributionActions.TransactionPageIsNewest(recipients, ts, user, rid, FetchLimit);
    }
    var shown := OfCategory(page, c);
    OfCategorySpec(page, c);
    assert forall i :: 0 <= i < |shown| ==> shown[i] in page;
  }

  /** `formatTransactionType(type)`. */
  function FormatTransactionType(kind: string): (name: string)
    ensures kind == "distribution" ==> name == "Allowance"
    ensures kind == "withdrawal" ==> name == "Withdrawal"
    ensures kind == "dividend" ==> name == "Dividend"
    ensures kind == "bonus" ==> name == "Bonus"
    ensures kind !in {"distribution", "withdrawal", "dividend", "bonus"} ==> name == kind
  {
    match kind
    case "distribution" => "Allowance"
    case "withdrawal" => "Withdrawal"
    case "dividend" => "Dividend"
    case "bonus" => "Bonus"
    case _ => kind
  }

  /** A type is relabelled exactly when it is one of the four known types. */
  lemma RelabelledIffKnown(kind: string)
    ensures FormatTransactionType(kind) != kind <==> kind in {"distribution", "withdrawal", "dividend", "bonus"}
  {
  }

  datatype Color = Green | Red

  /** `getTransactionColor(type, amount)`: green for money added, red otherwise. */
  function TransactionColor(kind: string, amount: real): (color: Color)
    ensures color == Green <==> amount > 0.0
  {
    if amount > 0.0 then Green else Red
  }

  /** The sign written before a displayed amount. */
  function SignPrefix(amount: real): (p: string)
    ensures p == "+" <==> amount > 0.0
    ensures p != "+" ==> p == ""
  {
    if amount > 0.0 then "+" else ""
  }

  /** The '+' sign appears exactly on the green amounts; a zero amount is red and unsigned. */
  lemma PlusExactlyOnGreen(kind: string, amount: real)
    ensures SignPrefix(amount) == "+" <==> TransactionColor(kind, amount) == Green
    ensures amount == 0.0 ==> SignPrefix(amount) == "" && TransactionColor(kind, amount) == Red
  {
  }

  /** The "showing recent transactions" note: ten or more shown. */
  predicate ShowRecentNote(shown: seq<Transaction>) {
    |shown| >= 10
  }

  /** The history's state: the shown transactions, the loading flag and the error message. */
  class History {
    const category: Category
    var transactions: seq<Transaction>
    var isLoading: bool
    var error: Option<string>

    constructor (category: Category)
      ensures this.category == category && transactions == [] && isLoading && error.None?
    {
      this.category := category;
      transactions := [];
      isLoading := true;
      error := None;
    }

    /** `fetchTransactions()`: `outcome` is the page the server returns, or its error's message. */
    method FetchTransactions(outcome: Result<seq<Transaction>, string>)
      modifies this
      ensures !isLoading
      ensures outcome.Success? ==> transactions == OfCategory(outcome.value, category) && error.None?
      ensures outcome.Failure? ==> transactions == old(transactions) && error == Some(outcome.error)
    {
      isLoading := true;
      error := None;
      if outcome.Success? {
        transactions := OfCategory(outcome.value, category);
      } else {
        error := Some(outcome.error);
      }
      isLoading := false;
    }
  }
}
