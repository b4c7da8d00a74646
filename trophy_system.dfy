/** The trophy shelf: seven achievements earned from the category balances, shown earned first,
  * up to a display limit, with an optional "Next Goal" placeholder. */
module TrophySystem {
  import opened Schema
  import opened Query

  /** The category a trophy belongs to: one of the four, or general. */
  datatype TrophyCategory = Of(c: Category) | General

  datatype Trophy = Trophy(id: string, title: string, earned: bool, category: TrophyCategory)

  /** The seven trophies, in their defined order, for the given balances. */
  function Trophies(b: Amounts): (ts: seq<Trophy>)
    ensures |ts| == 7
  {
    [ Trophy("first-saver", "First Saver", b.save > 0.0, Of(Save)),
      Trophy("generous-giver", "Generous Giver", b.give > 0.0, Of(Give)),
      Trophy("smart-investor", "Smart Investor", b.invest > 0.0, Of(Invest)),
      Trophy("wise-spender", "Wise Spender", b.spend > 0.0, Of(Spend)),
      Trophy("big-saver", "Big Saver", b.save >= 50.0, Of(Save)),
      Trophy("champion-giver", "Champion Giver", b.give >= 25.0, Of(Give)),
      Trophy("goal-achiever", "Goal Achiever",
             b.give >= 10.0 && b.spend >= 10.0 && b.save >= 10.0 && b.invest >= 10.0, General) ]
  }

  /** Every trophy is earned at a threshold on a balance, and the larger thresholds imply the
    * first steps: Big Saver implies First Saver, Champion Giver implies Generous Giver, and Goal
    * Achiever implies all four first-step trophies. */
  lemma TrophyImplications(b: Amounts)
    ensures var ts := Trophies(b);
      && (ts[4].earned ==> ts[0].earned)
      && (ts[5].earned ==> ts[1].earned)
      && (ts[6].earned ==> ts[0].earned && ts[1].earned && ts[2].earned && ts[3].earned)
      && (ts[6].earned <==> forall c :: b.Get(c) >= 10.0)
  {
    var ts := Trophies(b);
    if forall c :: b.Get(c) >= 10.0 {
      assert b.Get(Give) >= 10.0 && b.Get(Spend) >= 10.0 && b.Get(Save) >= 10.0 && b.Get(Invest) >= 10.0;
    }
  }

  /** The comparator returns at most 0 for `(a, b)`: `a` may stay before `b`. */
  predicate EarnedNoLater(a: Trophy, b: Trophy) {
    a.earned || !b.earned
  }

  lemma EarnedOrderIsTotal()
    ensures TotalPreorder(EarnedNoLater)
  {
  }

  /** The earned trophies, in their order. */
  function Earned(ts: seq<Trophy>): seq<Trophy> {
    if ts == [] then [] else (if ts[0].earned then [ts[0]] else []) + Earned(ts[1..])
  }

  /** The unearned trophies, in their order. */
  function Unearned(ts: seq<Trophy>): seq<Trophy> {
    if ts == [] then [] else (if ts[0].earned then [] else [ts[0]]) + Unearned(ts[1..])
  }

  /** The two filters select by the earned flag. */
  lemma {:induction false} FiltersSelect(ts: seq<Trophy>)
    ensures forall i :: 0 <= i < |Earned(ts)| ==> Earned(ts)[i].earned
    ensures forall i :: 0 <= i < |Unearned(ts)| ==> !Unearned(ts)[i].earned
  {
    if ts != [] {
      FiltersSelect(ts[1..]);
    }
  }

  /** The result of the stable sort: the earned trophies in their order, then the others in
    * theirs. */
  function EarnedFirst(ts: seq<Trophy>): (r: seq<Trophy>) {
    Earned(ts) + Unearned(ts)
  }

  /** The earned-first list is a permutation of the trophies in which every earned trophy comes
    * before every unearned one. */
  lemma EarnedFirstIsPartition(ts: seq<Trophy>)
    ensures multiset(EarnedFirst(ts)) == multiset(ts)
    ensures SortedBy(EarnedFirst(ts), EarnedNoLater)
  {
    FiltersPartition(ts);
    FiltersSelect(ts);
    var e, u := Earned(ts), Unearned(ts);
    forall i, j | 0 <= i < j < |e + u| ensures EarnedNoLater((e + u)[i], (e + u)[j]) {
      if i >= |e| {
        assert (e + u)[j] == u[j - |e|];
      }
    }
  }

  lemma {:induction false} FiltersPartition(ts: seq<Trophy>)
    ensures multiset(Earned(ts)) + multiset(Unearned(ts)) == multiset(ts)
  {
    if ts != [] {
      FiltersPartition(ts[1..]);
      assert ts == [ts[0]] + ts[1..];
      var head := multiset{ts[0]};
      if ts[0].earned {
        assert multiset(Earned(ts)) == head + multiset(Earned(ts[1..]));
        assert multiset(Unearned(ts)) == multiset(Unearned(ts[1..]));
      } else {
        assert multiset(Unearned(ts)) == head + multiset(Unearned(ts[1..]));
        assert multiset(Earned(ts)) == multiset(Earned(ts[1..]));
      }
    }
  }

  /** Inserting an unearned trophy into a list whose first `k` trophies are the earned ones
    * places it right after them. */
  lemma {:induction false} InsertUnearned(x: Trophy, s: seq<Trophy>, k: nat)
    requires !x.earned && k <= |s|
    requires forall i :: 0 <= i < k ==> s[i].earned
    requires forall i :: k <= i < |s| ==> !s[i].earned
    ensures Insert(x, s, EarnedNoLater) == s[..k] + [x] + s[k..]
  {
    if k == 0 {
      assert s[..0] + [x] + s[0..] == [x] + s;
    } else {
      var t := s[1..];
      assert Insert(x, t, EarnedNoLater) == t[..k - 1] + [x] + t[k - 1..] by {
        assert forall i :: 0 <= i < k - 1 ==> t[i] == s[i + 1];
        InsertUnearned(x, t, k - 1);
      }
      assert s[..k] + [x] + s[k..] == [s[0]] + (t[..k - 1] + [x] + t[k - 1..]);
    }
  }

  /** `availableTrophies.sort(...)` is stable, and the stable sort under this comparator is the
    * earned-first list. */
  lemma {:induction false} StableSortIsEarnedFirst(ts: seq<Trophy>)
    ensures SortBy(ts, EarnedNoLater) == EarnedFirst(ts)
  {
    if ts != [] {
      var e, u := Earned(ts[1..]), Unearned(ts[1..]);
      assert SortBy(ts[1..], EarnedNoLater) == e + u by {
        StableSortIsEarnedFirst(ts[1..]);
      }
      EarnedFirstCons(ts);
      if !ts[0].earned {
        FiltersSelect(ts[1..]);
        InsertAfterEarned(ts[0], e, u);
      }
    }
  }

  /** Inserting an unearned trophy between the earned and the unearned ones. */
  lemma InsertAfterEarned(x: Trophy, e: seq<Trophy>, u: seq<Trophy>)
    requires !x.earned
    requires forall i :: 0 <= i < |e| ==> e[i].earned
    requires forall i :: 0 <= i < |u| ==> !u[i].earned
    ensures Insert(x, e + u, EarnedNoLater) == e + [x] + u
  {
    var s := e + u;
    assert forall i :: 0 <= i < |e| ==> s[i] == e[i];
    assert forall i :: |e| <= i < |s| ==> s[i] == u[i - |e|];
    InsertUnearned(x, s, |e|);
    assert s[..|e|] == e && s[|e|..] == u;
  }

  /** The earned-first list of a non-empty list, from that of its tail. */
  lemma EarnedFirstCons(ts: seq<Trophy>)
    requires ts != []
    ensures ts[0].earned ==> EarnedFirst(ts) == [ts[0]] + EarnedFirst(ts[1..])
    ensures !ts[0].earned ==> EarnedFirst(ts) == Earned(ts[1..]) + [ts[0]] + Unearned(ts[1..])
  {
    var e, u := Earned(ts[1..]), Unearned(ts[1..]);
    if ts[0].earned {
      assert Earned(ts) == [ts[0]] + e && Unearned(ts) == u;
    } else {
      assert Earned(ts) == e && Unearned(ts) == [ts[0]] + u;
    }
  }

  /** The sort, which reorders the array in place. The comparator only tells earned from unearned
    * trophies, so the stable sort's result is the partition `EarnedFirst`; it is computed on the
    * array's values and written back element by element, rather than by the engine's own swaps. */
  method SortTrophies(a: array<Trophy>)
    modifies a
    ensures a[..] == EarnedFirst(old(a[..]))
    ensures multiset(a[..]) == multiset(old(a[..]))
    ensures SortedBy(a[..], EarnedNoLater)
  {
    var sorted := EarnedFirst(a[..]);
    assert |sorted| == a.Length by {
      FiltersLength(a[..]);
    }
    var i := 0;
    while i < a.Length
      invariant 0 <= i <= a.Length
      invariant a[..i] == sorted[..i]
    {
      a[i] := sorted[i];
      i := i + 1;
    }
    assert a[..] == sorted;
    EarnedFirstIsPartition(old(a[..]));
  }

  /** `sorted.slice(0, maxDisplay)`: a negative end counts back from the end of the list. */
  function Display(sorted: seq<Trophy>, maxDisplay: int): (r: seq<Trophy>)
    ensures maxDisplay >= 0 ==> |r| == (if maxDisplay < |sorted| then maxDisplay else |sorted|)
    ensures maxDisplay < 0 ==> |r| == (if |sorted| + maxDisplay > 0 then |sorted| + maxDisplay else 0)
    ensures r == sorted[..|r|]
  {
    var end := if maxDisplay < 0 then |sorted| + maxDisplay else maxDisplay;
    if end <= 0 then [] else if end < |sorted| then sorted[..end] else sorted
  }

  /** The "Next Goal" placeholder: some trophy unearned, and fewer shown than the limit. */
  predicate NextGoalShown(sorted: seq<Trophy>, maxDisplay: int) {
    (exists i :: 0 <= i < |sorted| && !sorted[i].earned) && |Display(sorted, maxDisplay)| < maxDisplay
  }

  /** Sorting keeps the number of trophies and which of them are unearned. */
  lemma {:induction false} FiltersLength(ts: seq<Trophy>)
    ensures |EarnedFirst(ts)| == |ts|
    ensures Unearned(ts) == [] <==> forall i :: 0 <= i < |ts| ==> ts[i].earned
  {
    if ts != [] {
      FiltersLength(ts[1..]);
      if forall i :: 0 <= i < |ts[1..]| ==> ts[1..][i].earned {
        if ts[0].earned {
          forall i | 0 <= i < |ts| ensures ts[i].earned {
            if i > 0 { assert ts[i] == ts[1..][i - 1]; }
          }
        }
      } else {
        var i :| 0 <= i < |ts[1..]| && !ts[1..][i].earned;
        assert !ts[i + 1].earned;
      }
    }
  }

  /** With seven trophies, the placeholder shows only when some trophy is unearned and the limit
    * exceeds seven; with the default limit of 4 it never shows. */
  lemma NextGoalNeedsRoom(ts: seq<Trophy>, maxDisplay: int)
    requires |ts| == 7
    ensures NextGoalShown(EarnedFirst(ts), maxDisplay) <==>
      (exists i :: 0 <= i < |ts| && !ts[i].earned) && maxDisplay > 7
    ensures !NextGoalShown(EarnedFirst(ts), 4)
  {
    var sorted := EarnedFirst(ts);
    FiltersLength(ts);
    FiltersSelect(ts);
    var e, u := Earned(ts), Unearned(ts);
    if exists i :: 0 <= i < |ts| && !ts[i].earned {
      assert u != [];
      assert !sorted[|e|].earned;
    }
    if exists j :: 0 <= j < |sorted| && !sorted[j].earned {
      var j :| 0 <= j < |sorted| && !sorted[j].earned;
      assert j >= |e|;
      assert u != [];
    }
  }
}
