/** The recipient profile header: circular navigation between the manager's recipients, the
  * navigation dots, and the note attached to a distribution made from the header. */
module ProfileHeader {
  import opened Wrappers
  import opened Schema
  import DistributionActions

  /** `allRecipients.findIndex(r => r.id === id)`: the first position of `id`, or -1. */
  function FindIndex(ids: seq<RecipientId>, id: RecipientId): (i: int)
    ensures -1 <= i < |ids|
    ensures i == -1 <==> id !in ids
    ensures i >= 0 ==> ids[i] == id && forall j :: 0 <= j < i ==> ids[j] != id
  {
    if ids == [] then -1
    else if ids[0] == id then 0
    else
      var k := FindIndex(ids[1..], id);
      if k == -1 then -1 else k + 1
  }

  /** Where a navigation button leads: nowhere (empty list), to a recipient, or to
    * `allRecipients[k]` for a `k` out of range, whose `.id` then throws. */
  datatype Navigation = Stay | GoTo(id: RecipientId) | OutOfRange(index: int)

  function Target(ids: seq<RecipientId>, k: int): Navigation {
    if 0 <= k < |ids| then GoTo(ids[k]) else OutOfRange(k)
  }

  /** `handlePreviousRecipient()`: from the first wrap to the last, otherwise one back. */
  function Previous(ids: seq<RecipientId>, id: RecipientId): (n: Navigation)
    ensures n == Stay <==> ids == []
    ensures n.GoTo? ==> n.id in ids
    ensures ids != [] && id in ids ==> n.GoTo?
    ensures ids != [] && id !in ids ==> n == OutOfRange(-2)
  {
    if |ids| == 0 then Stay
    else
      var current := FindIndex(ids, id);
      Target(ids, if current == 0 then |ids| - 1 else current - 1)
  }

  /** `handleNextRecipient()`: from the last wrap to the first, otherwise one forward. */
  function Next(ids: seq<RecipientId>, id: RecipientId): (n: Navigation)
    ensures n == Stay <==> ids == []
    ensures ids != [] ==> n.GoTo? && n.id in ids
  {
    if |ids| == 0 then Stay
    else
      var current := FindIndex(ids, id);
      Target(ids, if current == |ids| - 1 then 0 else current + 1)
  }

  /** The navigation of a recipient in the list: both buttons lead to its neighbours on the
    * circle. */
  lemma NavigationOfListedRecipient(ids: seq<RecipientId>, i: nat)
    requires i < |ids|
    requires forall a, b :: 0 <= a < b < |ids| ==> ids[a] != ids[b]
    ensures Next(ids, ids[i]) == GoTo(ids[if i == |ids| - 1 then 0 else i + 1])
    ensures Previous(ids, ids[i]) == GoTo(ids[if i == 0 then |ids| - 1 else i - 1])
  {
    assert FindIndex(ids, ids[i]) == i;
  }

  /** With ids distinct, Previous undoes Next and Next undoes Previous. */
  lemma NextThenPrevious(ids: seq<RecipientId>, id: RecipientId)
    requires id in ids
    requires forall a, b :: 0 <= a < b < |ids| ==> ids[a] != ids[b]
    ensures Next(ids, id).GoTo? && Previous(ids, Next(ids, id).id) == GoTo(id)
    ensures Previous(ids, id).GoTo? && Next(ids, Previous(ids, id).id) == GoTo(id)
  {
    var i := FindIndex(ids, id);
    var n := |ids|;
    NavigationOfListedRecipient(ids, i);
    NavigationOfListedRecipient(ids, if i == n - 1 then 0 else i + 1);
    NavigationOfListedRecipient(ids, if i == 0 then n - 1 else i - 1);
  }

  /** With an empty list neither button navigates; for an id missing from a non-empty list, Next
    * goes to the first recipient while Previous computes index -2. */
  lemma NavigationEdgeCases(ids: seq<RecipientId>, id: RecipientId)
    ensures ids == [] ==> Previous(ids, id) == Stay && Next(ids, id) == Stay
    ensures ids != [] && id !in ids ==> Next(ids, id) == GoTo(ids[0]) && Previous(ids, id) == OutOfRange(-2)
  {
  }

  /** The navigation dots: none for fewer than two recipients, otherwise one per recipient, the
    * one at the current index highlighted. */
  function Dots(ids: seq<RecipientId>, id: RecipientId): (dots: seq<bool>)
    ensures |ids| <= 1 ==> dots == []
    ensures |ids| > 1 ==> |dots| == |ids|
  {
    if |ids| > 1 then
      var current := FindIndex(ids, id);
      seq(|ids|, k => k == current)
    else []
  }

  /** With two or more distinct recipients, exactly the current one's dot is highlighted, and no
    * dot is when the current id is not listed. */
  lemma ExactlyCurrentDotHighlighted(ids: seq<RecipientId>, id: RecipientId)
    requires |ids| > 1
    requires forall a, b :: 0 <= a < b < |ids| ==> ids[a] != ids[b]
    ensures forall k :: 0 <= k < |ids| ==> (Dots(ids, id)[k] <==> ids[k] == id)
  {
    var current := FindIndex(ids, id);
    forall k | 0 <= k < |ids|
      ensures Dots(ids, id)[k] <==> ids[k] == id
    {
      if ids[k] == id {
        assert current >= 0 && ids[current] == id;
      }
    }
  }

  /** The amount written into the distribution's note: give + spend + save + invest. */
  function NoteAmount(d: Amounts): real {
    d.give + d.spend + d.save + d.invest
  }

  /** The note's amount is the total the server stores for that distribution. */
  lemma NoteAmountIsStoredTotal(id: RowId, user: UserId, rid: RecipientId, d: Amounts, date: int, note: string)
    ensures NoteAmount(d) == DistributionActions.NewDistribution(id, user, DistributionActions.DistributionData(rid, date, d, Some(note))).total
  {
  }
}
