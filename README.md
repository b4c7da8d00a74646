# Grovesmith allowance tracker — a Dafny model

Grovesmith lets a manager (a parent) give each recipient (a child) a weekly allowance. The
allowance is split four ways: Give, Spend, Save and Invest. The Give money can be earmarked for
charitable causes. This project models the core of the application in Dafny and proves
properties of that model:

- **Server actions.** These cover charitable causes, distributions and recipient profiles. They
  work over an in-memory copy of the database tables (`Schema.Db`). Listings are functions of the
  tables. Actions that write are methods that change the `Db` object. Each action is proved
  against a guard function that states its error cases in the order the action checks them.
- **Client components.** Components with React state are classes. Their fields are the state,
  and their methods are the event handlers. A handler's awaited server outcome is a parameter,
  and the callbacks it runs are returned as a sequence. Pure display logic is functions: progress
  and badges, trophies, themes, navigation and transaction labels.
- **Request middleware.** This is the redirect decision on the session's user and the path.

The modelling conventions are these:

- Money is `real`, compared exactly.
- Instants are integer milliseconds. A `YYYY-MM-DD` date is a day number.
- The caller is `Option<UserId>`, and `None` means not authenticated.
- "Now" is a parameter.
- Row ids for inserts come from a counter (`Db.nextId`).
- `ORDER BY` is a stable sort over a total preorder (module `Query`). Which of two rows with equal
  keys comes first is not promised by the store. The model keeps their stored order.

Behaviours of the code that the model makes explicit, with the lemma that shows each:

- `allocateToCharity` accepts a negative amount (`CausesActions.NegativeAllocationAccepted`).
- `allocateToCharity` does not check that the cause is still open (`CausesActions.AllocationKeepsBounds`).
- `createCharitableCause` does not check the goal (`CausesActions.NewCause`).
- Deleting a cause releases what it had earmarked before the allocation, so "allocate then
  delete" restores the unallocated money only when the cause held nothing or was completed
  (`CausesActions.AllocateThenDelete`).
- A cause driven below zero shows no Give control (`CauseCard.NegativeCurrentHidesGive`).
- The card's "complete" action calls `markCauseComplete`, which the causes module does not
  export, so completing from the card always fails (`CauseCard.CardState.MarkComplete`).
- `getRecipientDistributions` has no ownership check: it lists the caller's own rows for any
  recipient id (`DistributionActions.ListedDistributionsAreOwn`).
- The distribute modal seeds three weeks of allowance and has no input for an amount computed
  elsewhere (`DistributeModal.Modal.constructor`).
- Each category in the distribute modal is clamped on its own, so the remaining amount can go
  negative (`DistributeModal.RemainingCanBeNegative`).
- With the default display limit of 4, the trophy shelf never shows "Next Goal"
  (`TrophySystem.NextGoalNeedsRoom`).
- "Previous" on a recipient missing from the list computes index −2
  (`ProfileHeader.NavigationEdgeCases`).
- The weeks pending for a zero allowance are NaN or an infinity
  (`UndistributedCalculator.WeeksPending`).
- A category's history shows only that category's rows among the recipient's 50 latest
  transactions of any category (`TransactionHistory.ShownAreOwnAndOfCategory`).

## Model

| member | source | states |
|---|---|---|
| CausesActions.TotalAllocated | src/lib/charitable-causes-actions.ts:272-281 | The `reduce` (0 when nothing comes back) over the recipient's open causes: the sum of their `current_amount`, 0 without one. `TotalAllocatedAppend`, `TotalAllocatedUpdate`, `TotalAllocatedRemove` and `ActiveCountPermutation` state how it moves. |
| CausesActions.ActiveCount | src/lib/charitable-causes-actions.ts:89-102 | `existingCauses.length`: the number of the recipient's causes with `is_completed = false`, compared against the limit of 3 by `CreateCauseCheck`. |
| CausesActions.TotalAllocatedAppend | src/lib/charitable-causes-actions.ts:272-281 | The allocated total and the active count of a concatenation are the sums over its two parts. |
| CausesActions.TotalAllocatedUpdate | src/lib/charitable-causes-actions.ts:272-281 | Replacing one cause row changes the allocated total by the difference of the two rows' earmarks, and the active count likewise. |
| CausesActions.TotalAllocatedRemove | src/lib/charitable-causes-actions.ts:272-281 | Removing one cause row lowers the allocated total by its earmark, and the active count by one if it was active. |
| CausesActions.ActiveCountPermutation | src/lib/charitable-causes-actions.ts:89-102 | Reordering the cause rows changes neither the active count nor the allocated total. |
| CausesActions.CausesOf | src/lib/charitable-causes-actions.ts:54-58 | The `recipient_id` filter keeps exactly the recipient's rows, out of the table's rows. |
| CausesActions.CausesOfKeepsActive | src/lib/charitable-causes-actions.ts:89-102 | Filtering to the recipient first changes neither its active count nor its allocated total. |
| CausesActions.GetCharitableCauses | src/lib/charitable-causes-actions.ts:33-66 | Not authenticated, or not the caller's recipient, is an error. Otherwise the result is a permutation of the recipient's causes, sorted oldest first. |
| CausesActions.ListedCausesBelongToRecipient | src/lib/charitable-causes-actions.ts:54-66 | A cause is listed exactly when it is one of the recipient's rows. A recipient without rows gets an empty list. |
| CausesActions.GetGiveCategoryBalance | src/lib/charitable-causes-actions.ts:235-288 | Success exactly for the caller's recipient with exactly one Give row (`.single()`). The result is that row's balance, the total of the active causes' allocations, and their difference as the unallocated amount. |
| CausesActions.RowsOf | src/lib/charitable-causes-actions.ts:257-262 | The category query keeps exactly the rows of the recipient and category, in table order. |
| CausesActions.UnallocatedWithoutActiveCauses | src/lib/charitable-causes-actions.ts:271-285 | With no active cause, nothing is allocated and the whole Give balance is unallocated. |
| CausesActions.NewCause | src/lib/charitable-causes-actions.ts:105-115 | The inserted cause starts with 0 allocated and not completed. An absent or empty description or due date is stored as null. The goal is stored unchecked. |
| CausesActions.CreateCauseCheck | src/lib/charitable-causes-actions.ts:72-102 | The create guards in order: not authenticated, recipient not found, then the limit error exactly when the recipient already has 3 active causes. It passes exactly when none applies. |
| CausesActions.CreateCharitableCause | src/lib/charitable-causes-actions.ts:68-126 | On failure the table and the id counter are unchanged, and the error is the guard's verdict. On success exactly the new cause is appended. |
| CausesActions.CreateKeepsLimit | src/lib/charitable-causes-actions.ts:89-102 | A successful create keeps every recipient within 3 active causes, adds one active cause for its recipient, and earmarks nothing. |
| CausesActions.CompletedCausesDoNotCount | src/lib/charitable-causes-actions.ts:89-102 | Adding a completed cause never changes the create verdict. |
| CausesActions.OwnedCauseIndex | src/lib/charitable-causes-actions.ts:138-157 | A cause is found exactly when its id exists and its recipient is managed by the caller (the `recipients!inner` join). |
| CausesActions.FirstGiveRow | src/lib/charitable-causes-actions.ts:164-166 | `find` returns the first Give row of the recipient, and nothing when there is none. |
| CausesActions.CompleteDonation | src/lib/charitable-causes-actions.ts:128-189 | The stored procedure is called exactly for the caller's open cause whose first Give row covers the donation, with that cause's id, recipient, amount and name. A cause that is missing or not the caller's gives "not found". |
| CausesActions.CompletedCauseIsRefused | src/lib/charitable-causes-actions.ts:159-161 | A completed cause is refused as already completed, before funds are looked at. |
| CausesActions.DonationFundsCheck | src/lib/charitable-causes-actions.ts:164-170 | An open cause is refused for funds exactly when there is no Give row or the first one holds less than the donation. |
| CausesActions.DeleteCharitableCause | src/lib/charitable-causes-actions.ts:191-233 | Success exactly for a cause the caller owns. It removes exactly that row and keeps the ids unique. Failure changes nothing. |
| CausesActions.DeleteReleasesEarmark | src/lib/charitable-causes-actions.ts:219-224 | Deleting a cause raises its recipient's unallocated money by the cause's earmark and leaves the Give balance alone. Other recipients' figures do not change. |
| CausesActions.AllocateAt | src/lib/charitable-causes-actions.ts:329-335 | Only row `k` changes: its allocation grows by the amount. Every other row is as it was. |
| CausesActions.AllocateCheck | src/lib/charitable-causes-actions.ts:294-326 | The allocate guards in order, each with its own error: not authenticated, cause not found, goal exceeded, the Give balance lookup's error, then insufficient unallocated money. Any allocation that passes stays within the goal and within the unallocated money. |
| CausesActions.AllocateToCharity | src/lib/charitable-causes-actions.ts:290-345 | On failure the table is unchanged and the error is the guard's verdict. On success only the owned cause's allocation grows by the amount. |
| CausesActions.AllocationKeepsBounds | src/lib/charitable-causes-actions.ts:318-335 | After an allocation the cause is within its goal and the Give balance is unchanged. The unallocated money drops by the amount for an open cause and by nothing for a completed one, and it stays non-negative unless a completed cause took a negative amount. |
| CausesActions.AllocationIsLocal | src/lib/charitable-causes-actions.ts:329-335 | An allocation leaves other recipients' allocated totals unchanged. |
| CausesActions.AllocateThenDelete | src/lib/charitable-causes-actions.ts:191-233 | Allocating to a cause and then deleting it leaves the unallocated money raised by what the cause held before. It is back where it was exactly when the cause held nothing or was completed. |
| CausesActions.NegativeAllocationAccepted | src/lib/charitable-causes-actions.ts:318-326 | A negative amount passes every guard and drives the cause's allocation below zero. |
| CausesActions.AllocationExample | src/lib/charitable-causes-actions.ts:318-326 | With Give 40 and 30 allocated, 10 is unallocated, so 15 more is refused for funds although the goal allows it. |
| DistributionActions.DayOf | src/lib/distribution-actions.ts:62 | The stored date is the UTC day that contains the chosen instant. |
| DistributionActions.DistributeCheck | src/lib/distribution-actions.ts:23-54 | Accepted exactly for the caller's active recipient with a positive total and no negative part. The errors come in the order the source checks them: not authenticated, recipient not found, non-positive total, then a negative part. |
| DistributionActions.NewDistribution | src/lib/distribution-actions.ts:57-71 | The stored total is the sum of the four parts. The row has the caller's id and the day of the chosen instant. |
| DistributionActions.AcceptedDistributionIsSound | src/lib/distribution-actions.ts:41-54 | Every recorded distribution is positive, and each part is between 0 and the total. |
| DistributionActions.DistributeCheckOrder | src/lib/distribution-actions.ts:41-54 | A negative part is reported as a negative part, or as a non-positive total when it drags the total to zero. |
| DistributionActions.DistributeAllowance | src/lib/distribution-actions.ts:16-89 | On failure nothing changes and the error is the guard's verdict. On success exactly the new distribution is appended. |
| DistributionActions.DistributionsOf | src/lib/distribution-actions.ts:102-106 | The filter keeps exactly the rows for the recipient that the caller recorded. |
| DistributionActions.GetRecipientDistributions | src/lib/distribution-actions.ts:91-115 | Fails only when not authenticated. Otherwise the result is a permutation of the caller's rows for the recipient, latest day first. |
| DistributionActions.ListedDistributionsAreOwn | src/lib/distribution-actions.ts:102-107 | A distribution is listed exactly when it is for the recipient and recorded by the caller, with no check of who manages the recipient. |
| DistributionActions.TransactionsOf | src/lib/distribution-actions.ts:154 | The filter keeps exactly the recipient's transactions. |
| DistributionActions.GetRecipientTransactions | src/lib/distribution-actions.ts:117-165 | Ownership is checked without `is_active`. The page holds `min(limit, n)` transactions and is a prefix of a newest-first ordering of the recipient's transactions. |
| DistributionActions.TransactionPageIsNewest | src/lib/distribution-actions.ts:143-157 | Every listed transaction is the recipient's, and every one left out is no newer than every listed one. |
| DistributionActions.DistributedTotal | src/lib/distribution-actions.ts:203-204 | `totalDistributed`: the sum of `total_amount` over the recipient's distributions recorded by the caller, 0 without one; `DistributedTotalAppend` and `DistributedTotalNone` state it. |
| DistributionActions.DistributedTotalAppend | src/lib/distribution-actions.ts:203-204 | Appending a distribution raises the distributed total by its total exactly when it matches the recipient and the manager. |
| DistributionActions.DistributedTotalNone | src/lib/distribution-actions.ts:203-204 | With no matching distribution the sum is 0. |
| DistributionActions.CalculateUndistributedAllowance | src/lib/distribution-actions.ts:168-229 | The result has the whole weeks since creation and `weeks × allowance` owed, less what the caller distributed, floored at 0. It is an error when not authenticated or for a recipient the caller does not manage. |
| DistributionActions.DistributionLowersUndistributed | src/lib/distribution-actions.ts:203-220 | Recording a distribution raises the distributed total by its total and never raises the undistributed amount. |
| DistributionActions.NothingOwedInFirstWeek | src/lib/distribution-actions.ts:209-220 | Before a full week has passed, with nothing distributed, nothing is owed or undistributed. |
| DistributionActions.UndistributedExample | src/lib/distribution-actions.ts:203-220 | For 21 days at 10 a week with 25 given, 30 is owed and 5 is undistributed. |
| RecipientActions.UpdateCheck | src/lib/recipient-actions.ts:20-47 | The update guards in order, each with its own error: authentication, id and trimmed name, allowance > 0, then the caller's active recipient. It passes exactly when none applies. |
| RecipientActions.UpdatedRecipient | src/lib/recipient-actions.ts:50-61 | The new row has the trimmed name and the new allowance. An empty avatar becomes null, and the id, owner and flags are kept. |
| RecipientActions.UpdateRecipientProfile | src/lib/recipient-actions.ts:14-73 | On failure nothing changes. On success only the recipient's row is replaced, by the updated row. |
| RecipientActions.UpdatedProfileIsValid | src/lib/recipient-actions.ts:28-34 | A stored profile has a non-blank trimmed name and a positive allowance, and the trimmed name is trimmed already. |
| RecipientActions.FindRecipientUnchangedIds | src/lib/recipient-actions.ts:50-61 | Replacing rows without changing their ids keeps every lookup by id. |
| RecipientActions.ResetCheck | src/lib/recipient-actions.ts:76-99 | The reset guards in order, each with its own error: authentication, a non-empty id, then the caller's active recipient. It passes exactly when none applies. |
| RecipientActions.ZeroBalances | src/lib/recipient-actions.ts:102-108 | The step keeps the number of category rows. |
| RecipientActions.ZeroBalancesSpec | src/lib/recipient-actions.ts:102-108 | After the first write every category balance of the recipient is 0, in the same category. Other rows are untouched. |
| RecipientActions.ResetCauses | src/lib/recipient-actions.ts:116-124 | The step keeps the number of causes. |
| RecipientActions.ResetCausesSpec | src/lib/recipient-actions.ts:116-124 | After the second write every cause of the recipient remains with its id, 0 allocated and not completed. Other causes are untouched. |
| RecipientActions.DropTransactions | src/lib/recipient-actions.ts:132-135 | The step never adds a transaction. |
| RecipientActions.DropTransactionsSpec | src/lib/recipient-actions.ts:132-135 | After the third write exactly the other recipients' transactions remain. |
| RecipientActions.DropDistributions | src/lib/recipient-actions.ts:148-151 | The step never adds a distribution. |
| RecipientActions.DropDistributionsSpec | src/lib/recipient-actions.ts:148-151 | After the fourth write exactly the other recipients' distributions remain. |
| RecipientActions.ResetKeepsKeys | src/lib/recipient-actions.ts:116-151 | The reset keeps cause ids unique and every id below the next id to be handed out. |
| RecipientActions.ApplyReset | src/lib/recipient-actions.ts:101-158 | The four writes run in order. The first failing write stops the rest, and the writes before it stay applied. |
| RecipientActions.ResetStep.FailureMessage | src/lib/recipient-actions.ts:111-157 | The four reset errors: fixed texts for the balance and cause updates, and the store's message appended for the transaction and distribution deletions. |
| RecipientActions.ResetRecipientAccount | src/lib/recipient-actions.ts:75-172 | A guard failure changes nothing. A store failure at one write keeps the earlier writes and returns that write's error; the two deletions append the store's own message to it. Success applies all four writes and reports the recipient's name. |
| ProfileThemes.ToInt32 | src/lib/profile-themes.ts:95 | The 32-bit value is in [−2^31, 2^31) and congruent to its argument modulo 2^32. |
| ProfileThemes.ToInt32Congruent | src/lib/profile-themes.ts:94-95 | Values that are congruent modulo 2^32 have the same 32-bit value. |
| ProfileThemes.ShiftLeft5 | src/lib/profile-themes.ts:94 | `h << 5` is the 32-bit value of 32·h. |
| ProfileThemes.HashOf | src/lib/profile-themes.ts:91-96 | The hash is a signed 32-bit value. |
| ProfileThemes.HashStep | src/lib/profile-themes.ts:94-95 | One loop step is the 32-bit value of 31·hash + code. |
| ProfileThemes.ThemeIndex | src/lib/profile-themes.ts:99 | The index is always a valid theme position. |
| ProfileThemes.GetRecipientTheme | src/lib/profile-themes.ts:89-101 | The loop computes `HashOf`, and the theme is the one at `ThemeIndex` of that hash. |
| ProfileThemes.EmptyIdGetsSunset | src/lib/profile-themes.ts:89-101 | The empty id hashes to 0 and gets "sunset". |
| ProfileThemes.SingleCharacterHash | src/lib/profile-themes.ts:91-96 | A one-character id hashes to its character code. |
| ProfileThemes.FindTheme | src/lib/profile-themes.ts:105 | `find` returns the first theme with the id, and nothing exactly when no theme has it. |
| ProfileThemes.GetThemeById | src/lib/profile-themes.ts:104-106 | The lookup finds a listed theme with that id exactly when one exists. |
| ProfileThemes.ThemeIdsDistinct | src/lib/profile-themes.ts:14-86 | The ten theme ids are pairwise distinct. |
| ProfileThemes.ThemeByIdRoundTrip | src/lib/profile-themes.ts:104-106 | Every theme is found again by its own id. |
| ProfileThemes.HasUnlockedTheme | src/lib/profile-themes.ts:109-118 | Every theme is unlocked for everyone. |
| ProfileThemes.GetUnlockedThemes | src/lib/profile-themes.ts:121-128 | The unlocked themes are the first three, whoever asks. |
| ProfileThemes.DefaultThemeUnlocked | src/lib/profile-themes.ts:14-24 | The default theme "sunset" is among the unlocked ones. |
| CauseCard.Progress | src/components/recipients/charitable-cause-card.tsx:51-54 | The progress is at most 100 for a non-zero goal. For a zero goal it is 100, −∞ or NaN, following JavaScript arithmetic. |
| CauseCard.GoalReachedIff | src/components/recipients/charitable-cause-card.tsx:51-56 | The goal counts as reached exactly when `current >= goal` for a positive goal, `current > 0` for a zero goal, and `current <= goal` for a negative goal. |
| CauseCard.IsGoalReached | src/components/recipients/charitable-cause-card.tsx:56 | The progress is finite and at least 100; `GoalReachedIff` gives it for each sign of the goal. |
| CauseCard.Remaining | src/components/recipients/charitable-cause-card.tsx:55 | The remaining amount is non-negative, is 0 exactly when the goal is met, and otherwise completes the allocation to the goal. |
| CauseCard.ReachedIffNothingRemains | src/components/recipients/charitable-cause-card.tsx:51-56 | For a positive goal, it is reached exactly when nothing remains. |
| CauseCard.IsOverdue | src/components/recipients/charitable-cause-card.tsx:57-58 | A due date is set and now is after it; without a due date nothing is overdue. |
| CauseCard.StatusBadge | src/components/recipients/charitable-cause-card.tsx:121-132 | Completed, then Overdue, then Due Soon (at most 7 days) take precedence in that order; otherwise Active. |
| CauseCard.BadgeIgnoresDatesWhenDone | src/components/recipients/charitable-cause-card.tsx:57-61 | A completed cause is Completed whatever its dates. An open cause with no due date is Active. |
| CauseCard.DecideAllocation | src/components/recipients/charitable-cause-card.tsx:63-80 | An amount is submitted exactly when it is positive, within the unallocated money and within the remaining goal. The amount is rejected as invalid exactly when blank or not positive. |
| CauseCard.ApprovedAllocationPassesServer | src/components/recipients/charitable-cause-card.tsx:63-84 | An amount the card submits, for an open cause with the server's unallocated figure, passes every guard of `allocateToCharity`. |
| CauseCard.GiveControlFor | src/components/recipients/charitable-cause-card.tsx:228-283 | Give is offered exactly for an open cause short of its goal, with non-negative progress, while money is unallocated: a single button at 0 allocated, a split button above 0. |
| CauseCard.NegativeCurrentHidesGive | src/components/recipients/charitable-cause-card.tsx:228-283 | A cause with a negative allocation shows no Give control. |
| CauseCard.GiveAndCompleteExclusive | src/components/recipients/charitable-cause-card.tsx:228-299 | Give and the prominent complete button never show together. For a positive goal, the button shows exactly for an open cause whose goal is met. |
| CauseCard.CompleteButtonShown | src/components/recipients/charitable-cause-card.tsx:285-289 | An open cause with its goal reached and something allocated; `GiveAndCompleteExclusive` relates it to Give. |
| CauseCard.CompleteDisabled | src/components/recipients/charitable-cause-card.tsx:262-292 | The complete actions are disabled while the available balance is below the allocated amount. |
| CauseCard.EnabledCompletePassesServer | src/components/recipients/charitable-cause-card.tsx:262-292 | An enabled complete action, with the first Give row's balance as the available balance, passes every check of `completeDonation` for the allocated amount. |
| CauseCard.CardState.constructor | src/components/recipients/charitable-cause-card.tsx:45-49 | Both dialogs are closed, nothing is in flight, and the amount field is empty. |
| CauseCard.CardState.CancelAllocate | src/components/recipients/charitable-cause-card.tsx:341-344 | Cancel closes the give dialog and clears the field, and changes nothing else. |
| CauseCard.CardState.AllocateFunds | src/components/recipients/charitable-cause-card.tsx:63-95 | An amount is sent exactly when the checks pass. A success closes the dialog, clears the field and runs `onUpdate`. A rejection keeps the dialog. The busy flag ends cleared after a send. |
| CauseCard.CardState.MarkComplete | src/components/recipients/charitable-cause-card.tsx:97-119 | Completing always fails: `onUpdate` never runs, the dialog stays and the busy flag is cleared. |
| DistributeModal.Clamp | src/components/recipients/distribute-funds-modal.tsx:69 | The clamped amount is never negative. It is the amount when that lies in [0, limit], the limit when above it, and 0 when below 0. |
| DistributeModal.Modal.constructor | src/components/recipients/distribute-funds-modal.tsx:48-57 | The modal opens with three weeks of allowance available, nothing split, and dated now. |
| DistributeModal.Modal.Distribute | src/components/recipients/distribute-funds-modal.tsx:65-74 | The category takes the clamped amount, and the other three keep theirs. |
| DistributeModal.Modal.StepDown | src/components/recipients/distribute-funds-modal.tsx:197-205 | "−" lowers one category by 0.25, not below 0, and leaves the others alone. |
| DistributeModal.Modal.StepUp | src/components/recipients/distribute-funds-modal.tsx:217-225 | "+" raises one category by 0.25, not above the available amount, and leaves the others alone. |
| DistributeModal.Modal.StepDownDisabled | src/components/recipients/distribute-funds-modal.tsx:202 | "−" is disabled when the category holds nothing. |
| DistributeModal.Modal.StepUpDisabled | src/components/recipients/distribute-funds-modal.tsx:222 | "+" is disabled when less than 0.25 remains. |
| DistributeModal.Modal.Total | src/components/recipients/distribute-funds-modal.tsx:59-62 | `totalDistributed`: the sum of the four parts of the split. |
| DistributeModal.Modal.Remaining | src/components/recipients/distribute-funds-modal.tsx:63 | `remaining`: the available amount less the split's total; `RemainingCanBeNegative` shows it can drop below 0. |
| DistributeModal.Modal.QuickDistribute | src/components/recipients/distribute-funds-modal.tsx:76-84 | Every category gets a quarter, so the split totals the available amount and nothing remains. |
| DistributeModal.Modal.Submit | src/components/recipients/distribute-funds-modal.tsx:86-95 | With a positive total, the split and date are handed on, the available amount drops by the total (floored at 0), and the split is cleared. Otherwise nothing changes. |
| DistributeModal.Modal.Reset | src/components/recipients/distribute-funds-modal.tsx:97-99 | The split is cleared and the available amount is kept. |
| DistributeModal.Modal.Close | src/components/recipients/distribute-funds-modal.tsx:101-106 | The split is cleared, the date is now, three weeks are available again, and `onClose` is called. |
| DistributeModal.Modal.DecreaseAvailable | src/components/recipients/distribute-funds-modal.tsx:136 | The available amount drops by one allowance, not below 0. |
| DistributeModal.Modal.IncreaseAvailable | src/components/recipients/distribute-funds-modal.tsx:150 | The available amount rises by one allowance. |
| DistributeModal.Modal.SetAvailable | src/components/recipients/distribute-funds-modal.tsx:144 | A typed amount is taken, with a negative one taken as 0. |
| DistributeModal.Modal.SelectDate | src/components/recipients/distribute-funds-modal.tsx:57 | Only the date changes. |
| DistributeModal.RemainingCanBeNegative | src/components/recipients/distribute-funds-modal.tsx:59-74 | Clamping each category on its own lets the split exceed the available amount. |
| DistributeModal.SubmittedSplitPassesAmountChecks | src/components/recipients/distribute-funds-modal.tsx:86-88 | A positive, non-negative split for the caller's active recipient passes `distributeAllowance`'s guards. |
| EditRecipientModal.Payload | src/components/recipients/edit-recipient-modal.tsx:81-86 | The update carries the trimmed name, and the trimmed avatar or null when that is blank. |
| EditRecipientModal.ValidPayloadPassesInputChecks | src/components/recipients/edit-recipient-modal.tsx:56-86 | A form that validates yields an update that passes the server's input checks. |
| EditRecipientModal.Errors.Set | src/components/recipients/edit-recipient-modal.tsx:52 | Setting a key changes exactly that key. |
| EditRecipientModal.FormErrors | src/components/recipients/edit-recipient-modal.tsx:56-69 | There is a name error exactly for a blank trimmed name and an allowance error exactly for an allowance ≤ 0, each with its message. The record is empty exactly when both fields are acceptable. |
| EditRecipientModal.Modal.constructor | src/components/recipients/edit-recipient-modal.tsx:38-46 | The form opens with the recipient's values (avatar `|| ''`), no errors and no flags set. |
| EditRecipientModal.Modal.InputChange | src/components/recipients/edit-recipient-modal.tsx:48-54 | The field takes the value, a shown error of that field is blanked, and every other error is kept. |
| EditRecipientModal.Modal.ValidateForm | src/components/recipients/edit-recipient-modal.tsx:56-69 | The errors become the form's input errors, and the form is valid exactly when there are none. |
| EditRecipientModal.Modal.Submit | src/components/recipients/edit-recipient-modal.tsx:71-98 | The update is sent exactly for a valid form. On success it runs `onSuccess` then `onClose`; on failure it records the submit error. Loading ends cleared. |
| EditRecipientModal.Modal.Cancel | src/components/recipients/edit-recipient-modal.tsx:100-110 | The form returns to the recipient's values, errors and the confirmation are cleared, and the modal closes. |
| EditRecipientModal.Modal.ActionsDisabled | src/components/recipients/edit-recipient-modal.tsx:271-277 | Cancel and save are disabled while saving or resetting. |
| EditRecipientModal.Modal.ResetAccount | src/components/recipients/edit-recipient-modal.tsx:112-135 | The first click only arms the confirmation. The second calls the server, then disarms: it runs the callbacks on success and records the prefixed error on failure. |
| EditRecipientModal.Modal.CancelReset | src/components/recipients/edit-recipient-modal.tsx:244-249 | The confirmation is disarmed. |
| EditRecipientModal.TwoClickReset | src/components/recipients/edit-recipient-modal.tsx:112-135 | From a disarmed button, two clicks call the server once, on the second, and leave it disarmed and idle. |
| GiveTab.Active | src/components/recipients/tabs/give-category-tab.tsx:70 | Only open causes are kept. |
| GiveTab.Completed | src/components/recipients/tabs/give-category-tab.tsx:71 | Only completed causes are kept. |
| GiveTab.ActiveCompletedPartition | src/components/recipients/tabs/give-category-tab.tsx:70-71 | The two lists together hold every fetched cause exactly once. |
| GiveTab.FiltersKeepOrder | src/components/recipients/tabs/give-category-tab.tsx:70-71 | Both filters distribute over concatenation, so they keep the fetched order. |
| GiveTab.MessagesIff | src/components/recipients/tabs/give-category-tab.tsx:171-192 | The limit message shows exactly when adding is barred, and the empty state exactly when nothing was fetched. |
| GiveTab.LimitMessageShown | src/components/recipients/tabs/give-category-tab.tsx:192 | `!canAddMore && activeCauses.length >= 3`; `MessagesIff` proves it holds exactly when adding is barred. |
| GiveTab.EmptyStateShown | src/components/recipients/tabs/give-category-tab.tsx:171 | Both lists empty; `MessagesIff` proves it holds exactly when nothing was fetched. |
| GiveTab.DisplayedCompleted | src/components/recipients/tabs/give-category-tab.tsx:156 | The first (at most) three completed causes are shown, in order. |
| GiveTab.ActiveLengthIsActiveCount | src/components/recipients/tabs/give-category-tab.tsx:72 | For one recipient's causes, the tab's active count is the server's. |
| GiveTab.AddButtonAgreesWithServer | src/components/recipients/tabs/give-category-tab.tsx:72 | With the server's list, "Add Cause" is offered exactly when `createCharitableCause` would accept. |
| GiveTab.CanAddMore | src/components/recipients/tabs/give-category-tab.tsx:72 | Fewer than 3 active causes; `AddButtonAgreesWithServer` proves it agrees with the server's limit. |
| GiveTab.Tab.constructor | src/components/recipients/tabs/give-category-tab.tsx:39-46 | The tab starts empty and loading, with no error and 0 unallocated. |
| GiveTab.Tab.FetchCauses | src/components/recipients/tabs/give-category-tab.tsx:48-64 | On success the tab takes the list and the unallocated amount. On failure it keeps them and records the message. Loading ends cleared. |
| AddCauseModal.Payload | src/components/recipients/add-cause-modal.tsx:41-47 | An empty description or due date is left out, and everything else is sent as typed. |
| AddCauseModal.StoredCauseKeepsBlanksNull | src/components/recipients/add-cause-modal.tsx:41-47 | The stored cause has a null description or due date exactly when that field was left empty, and starts with nothing allocated. |
| AddCauseModal.Modal.constructor | src/components/recipients/add-cause-modal.tsx:17-23 | The form starts cleared and not submitting. |
| AddCauseModal.Modal.SetField | src/components/recipients/add-cause-modal.tsx:18-23 | Exactly one field changes. |
| AddCauseModal.Modal.Submit | src/components/recipients/add-cause-modal.tsx:25-59 | A cause is sent exactly when name and goal are filled and the goal is positive. A missing field or a bad goal alerts. A success clears the form and runs `onClose` then `onSuccess`. A failure alerts with its message. |
| AddCauseModal.Modal.Close | src/components/recipients/add-cause-modal.tsx:61-64 | The form is cleared and the modal closes. |
| ProfileHeader.FindIndex | src/components/recipients/recipient-profile-header.tsx:67 | The index is the first position of the id, or −1 exactly when it is absent. |
| ProfileHeader.NavigationOfListedRecipient | src/components/recipients/recipient-profile-header.tsx:69-87 | For a listed recipient, Next and Previous lead to its neighbours on the circle. |
| ProfileHeader.Previous | src/components/recipients/recipient-profile-header.tsx:68-78 | An empty list stays put. A listed id leads to a listed recipient; an unlisted id computes index -2. |
| ProfileHeader.Next | src/components/recipients/recipient-profile-header.tsx:80-87 | An empty list stays put; otherwise Next always leads to a listed recipient. |
| ProfileHeader.NextThenPrevious | src/components/recipients/recipient-profile-header.tsx:69-87 | With distinct ids, Previous undoes Next and Next undoes Previous. |
| ProfileHeader.NavigationEdgeCases | src/components/recipients/recipient-profile-header.tsx:69-87 | An empty list never navigates. For a missing id, Next goes to the first recipient while Previous computes index −2. |
| ProfileHeader.Dots | src/components/recipients/recipient-profile-header.tsx:247-255 | There are no dots for fewer than two recipients, and otherwise one per recipient. |
| ProfileHeader.ExactlyCurrentDotHighlighted | src/components/recipients/recipient-profile-header.tsx:247-255 | Exactly the current recipient's dot is highlighted. |
| ProfileHeader.NoteAmount | src/components/recipients/recipient-profile-header.tsx:105 | The amount in the note, give + spend + save + invest; `NoteAmountIsStoredTotal` proves it equals the stored total. |
| ProfileHeader.NoteAmountIsStoredTotal | src/components/recipients/recipient-profile-header.tsx:98-105 | The amount written in the note is the total the server stores. |
| UndistributedCalculator.WeeksPending | src/components/recipients/undistributed-funds-calculator.tsx:33 | For a non-zero allowance the result is the floor of amount / allowance. For a zero allowance it is NaN or ±∞. |
| UndistributedCalculator.WeeksPendingBounds | src/components/recipients/undistributed-funds-calculator.tsx:33 | For a positive allowance, the weeks pending are whole weeks that fit in the amount and are at most the weeks since creation. |
| UndistributedCalculator.Calculator.constructor | src/components/recipients/undistributed-funds-calculator.tsx:17-22 | The calculator starts loading, with 0 amount, 0 weeks and no error. |
| UndistributedCalculator.Calculator.StartFetch | src/components/recipients/undistributed-funds-calculator.tsx:27 | A fetch starts loading with no error and keeps the figures. |
| UndistributedCalculator.Calculator.FinishFetch | src/components/recipients/undistributed-funds-calculator.tsx:29-43 | A success takes the new figures. A failure keeps the old ones and records the message. Loading ends cleared. |
| TrophySystem.Trophies | src/components/recipients/trophy-system.tsx:34-98 | There are seven trophies. |
| TrophySystem.TrophyImplications | src/components/recipients/trophy-system.tsx:34-98 | The bigger trophies imply the first-step ones. Goal Achiever is earned exactly when every balance is at least 10. |
| TrophySystem.FiltersSelect | src/components/recipients/trophy-system.tsx:101-105 | The earned list holds only earned trophies, and the unearned list only unearned ones. |
| TrophySystem.EarnedFirstIsPartition | src/components/recipients/trophy-system.tsx:101-105 | Earned-first is a permutation of the trophies in which every earned trophy precedes every unearned one. |
| TrophySystem.FiltersPartition | src/components/recipients/trophy-system.tsx:101-105 | The two filters split the trophies' multiset. |
| TrophySystem.InsertUnearned | src/components/recipients/trophy-system.tsx:101-105 | Inserting an unearned trophy places it right after the earned ones. |
| TrophySystem.StableSortIsEarnedFirst | src/components/recipients/trophy-system.tsx:101-105 | A stable sort with this comparator gives exactly the earned trophies in order, then the unearned in order. |
| TrophySystem.InsertAfterEarned | src/components/recipients/trophy-system.tsx:101-105 | An unearned trophy is inserted between the earned and the unearned ones. |
| TrophySystem.EarnedFirstCons | src/components/recipients/trophy-system.tsx:101-105 | Earned-first of a list follows from earned-first of its tail. |
| TrophySystem.SortTrophies | src/components/recipients/trophy-system.tsx:101-105 | The in-place sort leaves the array earned-first: a permutation, sorted by the comparator. |
| TrophySystem.Display | src/components/recipients/trophy-system.tsx:108 | `slice(0, maxDisplay)` gives a prefix of the sorted trophies of the slice's length, with a negative end counted from the back. |
| TrophySystem.FiltersLength | src/components/recipients/trophy-system.tsx:101-110 | Sorting keeps the count, and nothing is unearned exactly when every trophy is earned. |
| TrophySystem.NextGoalNeedsRoom | src/components/recipients/trophy-system.tsx:109-126 | With seven trophies, "Next Goal" shows exactly when one is unearned and the limit exceeds 7. It never shows at the default limit of 4. |
| TrophySystem.NextGoalShown | src/components/recipients/trophy-system.tsx:126 | "Next Goal" shows when some trophy is unearned and fewer than the limit are displayed. |
| TransactionHistory.OfCategorySpec | src/components/recipients/category-transaction-history.tsx:49-51 | The filter keeps exactly the category's transactions. |
| TransactionHistory.OfCategory | src/components/recipients/category-transaction-history.tsx:49-51 | The category filter; `OfCategorySpec` and `OfCategoryKeepsOrder` state that it keeps exactly the category's transactions in order. |
| TransactionHistory.OfCategoryKeepsOrder | src/components/recipients/category-transaction-history.tsx:49-51 | The filter distributes over concatenation, so it keeps the fetched order. |
| TransactionHistory.ShownAreOwnAndOfCategory | src/components/recipients/category-transaction-history.tsx:46-51 | At most 50 transactions are shown, each the recipient's and of the tab's category. |
| TransactionHistory.ShowRecentNote | src/components/recipients/category-transaction-history.tsx:141 | The "recent transactions" note shows exactly when at least 10 transactions are shown. |
| TransactionHistory.FormatTransactionType | src/components/recipients/category-transaction-history.tsx:65-78 | "distribution", "withdrawal", "dividend" and "bonus" are labelled "Allowance", "Withdrawal", "Dividend" and "Bonus"; an unknown type is shown as is. |
| TransactionHistory.RelabelledIffKnown | src/components/recipients/category-transaction-history.tsx:65-78 | A type is relabelled exactly when it is one of the four known types. |
| TransactionHistory.TransactionColor | src/components/recipients/category-transaction-history.tsx:80-87 | The amount is green exactly when positive. |
| TransactionHistory.SignPrefix | src/components/recipients/category-transaction-history.tsx:121 | The amount carries "+" exactly when positive, and no sign otherwise. |
| TransactionHistory.PlusExactlyOnGreen | src/components/recipients/category-transaction-history.tsx:80-121 | "+" appears exactly on green amounts. A zero amount is red and unsigned. |
| TransactionHistory.History.constructor | src/components/recipients/category-transaction-history.tsx:36-38 | The history starts empty, loading and without error. |
| TransactionHistory.History.FetchTransactions | src/components/recipients/category-transaction-history.tsx:41-60 | A success shows the page filtered to the category. A failure keeps the list and records the message. Loading ends cleared. |
| Dashboard.ListedOf | src/app/dashboard/page.tsx:30-32 | Exactly the manager's active, unarchived recipients are kept: none other, and every one of them. |
| Dashboard.ListedRecipients | src/app/dashboard/page.tsx:19-33 | The listed recipients are a permutation of those recipients, oldest first. |
| Dashboard.NoRowKeepsZero | src/app/dashboard/page.tsx:42-47 | A category without rows keeps its default 0. |
| Dashboard.LastRowWins | src/app/dashboard/page.tsx:49-55 | The last row of a category determines its value. |
| Dashboard.LastBalance | src/app/dashboard/page.tsx:49-55 | The value of a category is the balance of its last row, or 0 without one; stated by `NoRowKeepsZero` and `LastRowWins`. |
| Dashboard.CategoryRecord | src/app/dashboard/page.tsx:42-55 | The loop leaves each category at the balance of its last row, or 0. |
| Dashboard.LoadDashboard | src/app/dashboard/page.tsx:8-62 | With no user the page redirects. A failed query gives no recipients. Otherwise each listed recipient keeps its fields and gets its folded balances. |
| Middleware.Decide | src/middleware.ts:41-53 | Anonymous requests off the public paths go to login, signed-in requests to /login go to the dashboard, and every other request passes. |
| Middleware.NoRedirectLoop | src/middleware.ts:41-53 | Following either redirect never redirects again. |
| Middleware.RedirectsExclusive | src/middleware.ts:41-53 | Without a user the only redirect is to login, and with one the only redirect is to the dashboard. |
| Text.Trim | src/lib/recipient-actions.ts:28 | `trim` gives empty exactly for all-white-space input, and otherwise starts and ends with a non-space character. |
| Text.TrimIsInfix | src/lib/recipient-actions.ts:28 | What `trim` keeps is a contiguous part of the input with only white space before and after it. |
| Text.TrimIdempotent | src/lib/recipient-actions.ts:53 | Trimming twice is trimming once. |
| Schema.OwnsIffRow | src/lib/recipient-actions.ts:37-47 | Under unique ids, ownership is the existence of a matching recipient row. |
| Query.SortBySorted | src/lib/charitable-causes-actions.ts:58 | Sorting by a total preorder yields an ordered sequence. |
| Query.SortBy | src/lib/charitable-causes-actions.ts:58 | `ORDER BY`: a permutation of the rows, of the same length; `SortBySorted` proves it ordered. |
| Query.Take | src/lib/distribution-actions.ts:157 | `LIMIT n`: the first min(n, |rows|) rows. |

## Left out

- The authentication provider, the database client and `revalidatePath`. They are I/O. The caller and "now" are parameters.
- Store errors in most actions: the reads and writes of getCharitableCauses, createCharitableCause, completeDonation, deleteCharitableCause, getGiveCategoryBalance, allocateToCharity, distributeAllowance, getRecipientDistributions, getRecipientTransactions, calculateUndistributedAllowance and updateRecipientProfile always succeed in the model, so their store-error branches are not modelled. Only the four reset writes, the dashboard query and the client fetches take a store outcome as a parameter.
- The database's stored procedure `complete_charitable_donation` and the distribution insert triggers (balance updates and transaction rows). Their bodies are not part of this model, so `CompleteDonation` returns the call it would make and `DistributeAllowance` only inserts the row.
- Concurrency between requests: actions are modelled as atomic.
- Floating point. Money is `real`. `toFixed`, `parseFloat` and the rounding of sums are not modelled: a parsed number is a parameter.
- String lengths in UTF-16 code units, and `charCodeAt`: a Dafny `char` stands for one code unit.
- date-fns `isAfter` and `differenceInDays`: the card takes "overdue" and the day count as inputs.
- The `distributions` join embedded in each transaction row is not modelled.
- The store's own error message, which the reset appends to two of its errors, is a parameter, not derived.
- Dashboard rows whose category is none of the four known keys: the model has only the four categories.
- Middleware session-cookie refreshing and the route matcher configuration are not modelled.
- `createManagerProfile` on the dashboard is not modelled; it is a write the page does not depend on.
- GiveTab.Tab.FetchCauses: when both queries fail, the message kept is the one `Promise.all` rejects with first, which is given as the parameter.
- UndistributedCalculator.WeeksPending: NaN and ±∞ are named values, and a finite quotient is floored exactly, without floating-point rounding.
- CauseCard.Progress: a finite progress value is exact, without floating-point rounding.
- Rendering: markup, styles and icons are not modelled.
