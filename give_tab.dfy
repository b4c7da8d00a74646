/** The Give tab: the recipient's causes split into active and completed, the cap on adding more,
  * and the state its fetch fills in. */
module GiveTab {
  import opened Wrappers
  import opened Schema
  import opened Query
  import opened CausesActions

  /** `causes.filter(cause => !cause.is_completed)`. */
  function Active(cs: seq<Cause>): (r: seq<Cause>)
    ensures forall i :: 0 <= i < |r| ==> !r[i].isCompleted
  {
    if cs == [] then []
    else
      (if cs[0].isCompleted then [] else [cs[0]]) + Active(cs[1..])
  }

  /** `causes.filter(cause => cause.is_completed)`. */
  function Completed(cs: seq<Cause>): (r: seq<Cause>)
    ensures forall i :: 0 <= i < |r| ==> r[i].isCompleted
  {
    if cs == [] then []
    else
      (if cs[0].isCompleted then [cs[0]] else []) + Completed(cs[1..])
  }

  /** The two lists together hold every fetched cause exactly once. */
  lemma {:induction false} ActiveCompletedPartition(cs: seq<Cause>)
    ensures multiset(Active(cs)) + multiset(Completed(cs)) == multiset(cs)
    ensures |Active(cs)| + |Completed(cs)| == |cs|
  {
    if cs != [] {
      var t := cs[1..];
      assert multiset(Active(t)) + multiset(Completed(t)) == multiset(t) && |Active(t)| + |Completed(t)| == |t| by {
        ActiveCompletedPartition(t);
      }
      assert multiset(cs) == multiset{cs[0]} + multiset(t) by {
        assert cs == [cs[0]] + t;
      }
      if cs[0].isCompleted {
        assert Completed(cs) == [cs[0]] + Completed(t) && Active(cs) == Active(t);
      } else {
        assert Active(cs) == [cs[0]] + Active(t) && Completed(cs) == Completed(t);
      }
    }
  }

  /** Both filters distribute over concatenation, so each keeps the fetched order. */
  lemma {:induction false} FiltersKeepOrder(a: seq<Cause>, b: seq<Cause>)
    ensures Active(a + b) == Active(a) + Active(b)
    ensures Completed(a + b) == Completed(a) + Completed(b)
  {
    ActiveKeepsOrder(a, b);
    CompletedKeepsOrder(a, b);
  }

  lemma {:induction false} ActiveKeepsOrder(a: seq<Cause>, b: seq<Cause>)
    ensures Active(a + b) == Active(a) + Active(b)
  {
    if a == [] {
      assert a + b == b;
    } else {
      assert (a + b)[0] == a[0];
      assert (a + b)[1..] == a[1..] + b;
      assert Active(a[1..] + b) == Active(a[1..]) + Active(b) by {
        ActiveKeepsOrder(a[1..], b);
      }
      var head := if a[0].isCompleted then [] else [a[0]];
      assert Active(a + b) == head + Active(a[1..] + b);
      assert Active(a) == head + Active(a[1..]);
    }
  }

  lemma {:induction false} CompletedKeepsOrder(a: seq<Cause>, b: seq<Cause>)
    ensures Completed(a + b) == Completed(a) + Completed(b)
  {
    if a == [] {
      assert a + b == b;
    } else {
      assert (a + b)[0] == a[0];
      assert (a + b)[1..] == a[1..] + b;
      assert Completed(a[1..] + b) == Completed(a[1..]) + Completed(b) by {
        CompletedKeepsOrder(a[1..], b);
      }
      var head := if a[0].isCompleted then [a[0]] else [];
      assert Completed(a + b) == head + Completed(a[1..] + b);
      assert Completed(a) == head + Completed(a[1..]);
    }
  }

  /** `canAddMore`. */
  predicate CanAddMore(cs: seq<Cause>) {
    |Active(cs)| < MaxActiveCauses
  }

  /** The limit message: `!canAddMore && activeCauses.length >= 3`. */
  predicate LimitMessageShown(cs: seq<Cause>) {
    !CanAddMore(cs) && |Active(cs)| >= 3
  }

  /** The empty state: both lists empty. */
  predicate EmptyStateShown(cs: seq<Cause>) {
    |Active(cs)| == 0 && |Completed(cs)| == 0
  }

  /** The limit message shows exactly when adding is not allowed, and the empty state exactly
    * when nothing was fetched. */
  lemma MessagesIff(cs: seq<Cause>)
    ensures LimitMessageShown(cs) <==> !CanAddMore(cs)
    ensures EmptyStateShown(cs) <==> cs == []
    ensures EmptyStateShown(cs) ==> CanAddMore(cs)
  {
    ActiveCompletedPartition(cs);
  }

  /** `completedCauses.slice(0, 3)`: the first three completed causes. */
  function DisplayedCompleted(cs: seq<Cause>): (r: seq<Cause>)
    ensures |r| <= 3
    ensures |r| == 3 || r == Completed(cs)
    ensures |r| <= |Completed(cs)| && forall i :: 0 <= i < |r| ==> r[i] == Completed(cs)[i]
  {
    Take(Completed(cs), 3)
  }

  /** For a list of one recipient's causes, the active ones counted by the tab are those the
    * server counts. */
  lemma {:induction false} ActiveLengthIsActiveCount(cs: seq<Cause>, rid: RecipientId)
    requires forall i :: 0 <= i < |cs| ==> cs[i].recipientId == rid
    ensures |Active(cs)| == ActiveCount(cs, rid)
  {
    if cs != [] {
      ActiveLengthIsActiveCount(cs[1..], rid);
    }
  }

  /** With the list the server returns, the tab offers "Add Cause" exactly when the server's
    * `createCharitableCause` would accept a new cause for that recipient. */
  lemma AddButtonAgreesWithServer(recipients: seq<Recipient>, causes: seq<Cause>, user: UserId, rid: RecipientId)
    requires GetCharitableCauses(recipients, causes, Some(user), rid).Success?
    ensures var listed := GetCharitableCauses(recipients, causes, Some(user), rid).value;
      CanAddMore(listed) <==> CreateCauseCheck(recipients, causes, Some(user), rid).None?
  {
    var listed := GetCharitableCauses(recipients, causes, Some(user), rid).value;
    ActiveCountPermutation(listed, CausesOf(causes, rid), rid);
    CausesOfKeepsActive(causes, rid);
    assert forall i :: 0 <= i < |listed| ==> listed[i].recipientId == rid by {
      forall i | 0 <= i < |listed| ensures listed[i].recipientId == rid {
        assert listed[i] in multiset(CausesOf(causes, rid));
      }
    }
    ActiveLengthIsActiveCount(listed, rid);
  }

  /** The tab's state: the fetched causes, the loading flag, the error message and the
    * unallocated Give balance. */
  class Tab {
    var causes: seq<Cause>
    var isLoading: bool
    var error: Option<string>
    var unallocatedBalance: real

    constructor ()
      ensures causes == [] && isLoading && error.None? && unallocatedBalance == 0.0
    {
      causes := [];
      isLoading := true;
      error := None;
      unallocatedBalance := 0.0;
    }

    /** `fetchCauses()`. `outcome` is what the two queries, awaited together, yield: the list and
      * the balance, or the message of the first failure. */
    method FetchCauses(outcome: Result<(seq<Cause>, GiveBalance), string>)
      modifies this
      ensures !isLoading
      ensures outcome.Success? ==>
        && causes == outcome.value.0
        && unallocatedBalance == outcome.value.1.unallocated
        && error.None?
      ensures outcome.Failure? ==>
        && causes == old(causes)
        && unallocatedBalance == old(unallocatedBalance)
        && error == Some(outcome.error)
    {
      isLoading := true;
      error := None;
      if outcome.Success? {
        causes := outcome.value.0;
        unallocatedBalance := outcome.value.1.unallocated;
      } else {
        error := Some(outcome.error);
      }
      isLoading := false;
    }
  }
}
