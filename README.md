# FairShare: group and expense bookkeeping, in Dafny

FairShare is an expense-sharing web application. Users form groups, log shared
expenses, mark their shares as settled, and view a settlement plan and a spending
analysis. This project models three parts of it:

- **The server's group and expense handlers** (`groupController.js`, `expenseController.js`).
  They work on a store of three collections: users, groups and expenses.
  Here the store is the class `Handlers.Store`, with one map field per collection.
  Each handler is a method that either answers with a failure (404, 403, 400 or 500) and leaves the store unchanged, or performs its updates.
  Every handler preserves the invariant `StoreInvariants.Consistent`. It has four parts:
  - emails are unique;
  - no group lists a user twice;
  - a user's group list names exactly the groups that list the user as a member;
  - a group's expense list names exactly the expenses whose `group` is that group.
  With this invariant, `DeleteGroup` provably leaves no reference to the deleted group.
- **The formatting in the settlement-plan and analysis handlers.**
  The settlement and analysis algorithms are in `server/algorithms/graphAlgorithms.js`, which is not part of this model.
  Their results are arguments to `GetSettlementPlan` and `GetExpenseAnalysis`.
  The model covers what the handlers do with those results:
  - build a name table from the member list, where later entries win;
  - copy the results in order;
  - compute each percentage as `amount / totalAmount * 100`.
- **The group page of the web client** (`GroupDetail.jsx`).
  Its list updaters are pure functions over sequences. Its button conditions are predicates.
  Lemmas relate both to the server:
  - a visible "Mark as Settled" button is never refused by the server's guards;
  - the delete button is shown exactly when the server allows the delete;
  - the remove button is stricter than the server's guard;
  - the client's id list changes exactly as the server's expense list does.

Ids are strings. The server compares ids through `toString()` and the client with `===`.
Money amounts are exact reals.

A zero analysis total is not guarded: `Reports.Percentage` yields an infinity or NaN, as JavaScript division does.
`Reports.ZeroTotalHasNoFinitePercentage` states this.

One edge case is stated as a lemma, `GroupDetail.SecondShareCannotBeSettled`.
The server settles only the caller's first share.
So if a user holds two shares of one expense and the first is settled, the button on the second stays visible.
Clicking it leaves the expense unchanged.

## Model

| member | source | states |
|---|---|---|
| `Records.Status` | server/controllers/groupController.js:90-108 | each failure has one HTTP status: missing user, group or expense gives 404, not authorized gives 403, already a member gives 400, server error gives 500 |
| `Membership.IsMember` | server/controllers/groupController.js:69-71 | the membership gate `members.some(...)`: some entry of the member list belongs to the user (the same test guards expenseController.js:23-25, :78-80, :108-110 and :201-203) |
| `Membership.WithoutUser` | server/controllers/groupController.js:147-149 | removing a user leaves no entry of that user, keeps every other user's membership, and is the identity for a non-member |
| `Membership.WithoutId` | server/controllers/expenseController.js:262 | removing an id leaves no occurrence of it, keeps every other id, and is the identity when the id is absent |
| `Membership.WithoutIdIdempotent` | server/controllers/groupController.js:187 | removing the same id twice is removing it once |
| `Membership.WithoutIdKeepsOrder` | server/controllers/expenseController.js:262 | removing an id from a concatenation removes it from each part, and a single id survives iff it differs, so the other ids keep their order |
| `Membership.WithoutUserKeepsOrder` | server/controllers/groupController.js:147-149 | removing a user from a concatenated member list removes the user from each part, and a single entry survives iff it belongs to someone else, so the other members keep their order |
| `Membership.WithoutUserKeepsNoDuplicates` | server/controllers/groupController.js:147-149 | removing a member keeps a duplicate-free member list duplicate-free |
| `Membership.AppendNewMemberKeepsNoDuplicates` | server/controllers/groupController.js:101-115 | appending a user who is not yet a member keeps the member list duplicate-free |
| `ExpenseRules.CategoryOrDefault` | server/controllers/expenseController.js:49 | a missing or empty category becomes "Other"; any other category is kept |
| `ExpenseRules.NewSplits` | server/controllers/expenseController.js:42-47 | one share per requested share, in order, with user, name and amount copied and `settled` false |
| `ExpenseRules.NewExpense` | server/controllers/expenseController.js:35-50 | the new expense is paid by the caller under the caller's name, belongs to the group, carries exactly the copied shares with none settled, and its category defaults to "Other" |
| `ExpenseRules.FindSplit` | server/controllers/expenseController.js:165-167 | returns the index of the caller's first share, or None exactly when the caller holds no share |
| `ExpenseRules.SettleFirst` | server/controllers/expenseController.js:165-179 | same length; only the share `find` returns gets `settled = true`; every other share is unchanged |
| `ExpenseRules.SettleCheck` | server/controllers/expenseController.js:164-176 | settling is allowed iff the caller holds a share and did not pay; with no share the answer is NotAuthorized, whoever paid |
| `ExpenseRules.Settled` | server/controllers/expenseController.js:178-179 | settling changes only the shares, never the other fields of the expense |
| `ExpenseRules.DeleteCheck` | server/controllers/expenseController.js:254-257 | deleting is allowed iff the caller is the payer; otherwise the answer is NotAuthorized |
| `ExpenseRules.SettleOnlyTouchesCallersShare` | server/controllers/expenseController.js:165-179 | settling changes at most the settled flag of the caller's first share, never another user's share |
| `ExpenseRules.SettleMarksFoundShare` | server/controllers/expenseController.js:165-179 | after a settle, `find` returns the same share and that share is settled |
| `ExpenseRules.SettleIdempotent` | server/controllers/expenseController.js:165-180 | settling twice is settling once |
| `ExpenseRules.SettleAlreadySettled` | server/controllers/expenseController.js:165-180 | settling when the caller's first share is already settled changes nothing |
| `ExpenseRules.FindSplitDependsOnUsers` | server/controllers/expenseController.js:165-167 | `find` depends only on the users of the shares |
| `Reports.NameOf` | server/controllers/expenseController.js:129-132 | a name is found exactly for the group's members, and it is the name of one of that user's entries |
| `Reports.NameOfMember` | server/controllers/expenseController.js:129-132 | with no duplicate members, each member's id maps to that member's own name |
| `Reports.BuildUserMap` | server/controllers/expenseController.js:129-132 | the loop's table has a key exactly for each member, holding the name of the user's last entry |
| `Reports.Lookup` | server/controllers/expenseController.js:137 | a table lookup gives a name exactly for the keys of the table, and `undefined` (None) otherwise |
| `Reports.FormatPlan` | server/controllers/expenseController.js:134-144 | same length and order as the plan; ids and amounts copied; names looked up |
| `Reports.Percentage` | server/controllers/expenseController.js:226 | `amount / total * 100` for a non-zero total; for a zero total, +Infinity, -Infinity or NaN by the sign of the amount |
| `Reports.UserShares` | server/controllers/expenseController.js:222-227 | one share per user entry, in order, with the name looked up and the percentage of the total |
| `Reports.CategoryShares` | server/controllers/expenseController.js:228-232 | one share per category entry, in order, with the percentage of the total |
| `Reports.FormatAnalysis` | server/controllers/expenseController.js:221-234 | the total is copied unchanged, and both lists are formatted against it |
| `Reports.CategoryPercentagesSum` | server/controllers/expenseController.js:228-233 | for a non-zero total, every category percentage is finite and they sum to the entries' sum over the total, times 100 |
| `Reports.CategoryPercentagesTotal100` | server/controllers/expenseController.js:228-233 | when the total is the sum of the category amounts and is not zero, the category percentages sum to exactly 100 |
| `Reports.ZeroTotalHasNoFinitePercentage` | server/controllers/expenseController.js:221-233 | with a zero total, no user or category percentage is finite, because the code has no guard |
| `StoreInvariants.StripGroup` | server/controllers/groupController.js:184-190 | taking a group out of users' lists keeps the set of users and every user's email |
| `StoreInvariants.StripGroupStep` | server/controllers/groupController.js:184-190 | one more loop iteration extends the set of stripped users by one, and stripping a user twice has no further effect |
| `StoreInvariants.CreateGroupKeepsConsistent` | server/controllers/groupController.js:14-30 | creating a group keeps the store consistent |
| `StoreInvariants.AddMemberKeepsConsistent` | server/controllers/groupController.js:110-121 | adding a member keeps the store consistent, including no duplicate members |
| `StoreInvariants.RemoveMemberKeepsConsistent` | server/controllers/groupController.js:146-160 | removing a member keeps the store consistent |
| `StoreInvariants.DeleteGroupKeepsConsistent` | server/controllers/groupController.js:183-196 | deleting a group keeps the store consistent; afterwards no user's group list and no expense refers to it |
| `StoreInvariants.DeleteGroupUnlinksUsers` | server/controllers/groupController.js:184-190 | after stripping the members, no user at all lists the group |
| `StoreInvariants.AddExpenseKeepsConsistent` | server/controllers/expenseController.js:35-57 | adding an expense keeps the store consistent |
| `StoreInvariants.DeleteExpenseKeepsConsistent` | server/controllers/expenseController.js:259-267 | deleting an expense keeps the store consistent; afterwards no group lists it |
| `Handlers.Store.CreateGroup` | server/controllers/groupController.js:6-37 | 500 with nothing changed for an unknown caller or an empty name (the group schema requires a name, server/models/Group.js:4-7); otherwise the caller is the only member and the creator, and the group id is appended to the caller's groups; nothing else changes |
| `Handlers.Store.GetUserGroups` | server/controllers/groupController.js:40-56 | 500 for an unknown caller; otherwise the existing groups named in the caller's group list |
| `Handlers.Store.GetGroupById` | server/controllers/groupController.js:59-82 | 404 for a missing group, checked before membership; then 403 for a non-member; otherwise the group |
| `Handlers.Store.AddMember` | server/controllers/groupController.js:85-128 | 404 iff no user has the email; 404 for a missing group; 400 iff already a member; success whenever the user exists, the group exists and the user is not a member, whoever the caller is; on success one member appended and the group appended to the user's groups |
| `Handlers.Store.RemoveMember` | server/controllers/groupController.js:131-167 | 404, then 403 unless the caller is the creator; otherwise all entries of the user are filtered out, the group leaves that user's list if the user exists, and the creator may be removed |
| `Handlers.Store.DeleteGroup` | server/controllers/groupController.js:170-203 | 404, then 403 unless the caller is the creator; otherwise the group and its expenses are gone and no user lists the group |
| `Handlers.Store.UnlinkMembers` | server/controllers/groupController.js:184-190 | the loop over the member entries takes the group out of the list of exactly the member users that exist; groups and expenses are untouched |
| `Handlers.Store.AddExpense` | server/controllers/expenseController.js:12-64 | 404 for a missing group, then 403 for a non-member; otherwise the new expense is stored and its id appended to the group's list; users unchanged |
| `Handlers.Store.GetGroupExpenses` | server/controllers/expenseController.js:67-94 | 404, then 403 for a non-member; otherwise exactly the expenses whose group is this group |
| `Handlers.Store.GetSettlementPlan` | server/controllers/expenseController.js:97-151 | 404, then 403 for a non-member; otherwise the plan in its order and length, with names from the member list |
| `Handlers.Store.GetExpenseAnalysis` | server/controllers/expenseController.js:190-241 | 404, then 403 for a non-member; otherwise the totals with names and percentages, and the total copied |
| `Handlers.Store.SettleExpense` | server/controllers/expenseController.js:154-187 | 404 first; 403 when the caller holds no share; 403 when the caller paid; otherwise only the caller's first share becomes settled |
| `Handlers.Store.DeleteExpense` | server/controllers/expenseController.js:244-274 | 404, then 403 unless the caller paid; otherwise the expense is deleted and every occurrence of its id leaves its group's list, the other ids in order |
| `GroupDetail.Ids` | client/src/components/groups/GroupDetail.jsx:200-201 | the ids of the client's list, in order |
| `GroupDetail.OnExpenseAdded` | client/src/components/groups/GroupDetail.jsx:45-47 | the incoming expense is appended at the end; earlier entries are unchanged |
| `GroupDetail.OnSettlementUpdate` | client/src/components/groups/GroupDetail.jsx:50-56 | same length and order; exactly the entries with the matching `_id` are replaced |
| `GroupDetail.OnExpenseDeleted` | client/src/components/groups/GroupDetail.jsx:59-63 | keeps exactly the entries whose `_id` differs |
| `GroupDetail.RemoveMemberLocally` | client/src/components/groups/GroupDetail.jsx:105-108 | the client's own filter leaves exactly the member list the server's removeMember filter leaves; the user is no longer a member, every other membership is kept, and the rest of the group is unchanged |
| `GroupDetail.OnMemberRemoved` | client/src/components/groups/GroupDetail.jsx:66-73 | the group changes only when the event's group id is the current one, and then loses exactly that user |
| `GroupDetail.ShowSettleButton` | client/src/components/groups/GroupDetail.jsx:245 | "Mark as Settled" appears on a share of the current user that is not settled, of an expense the user did not pay; related to the server by `SettleButtonIsAccepted` |
| `GroupDetail.ShowDeleteButton` | client/src/components/groups/GroupDetail.jsx:205 | "Delete" appears on the expenses the current user paid; related to the server by `DeleteButtonMatchesServer` |
| `GroupDetail.ShowRemoveButton` | client/src/components/groups/GroupDetail.jsx:165 | "Remove" appears to the group's creator on every entry but the creator's own; related to the server by `RemoveButtonStricterThanServer` |
| `GroupDetail.SettleButtonIsAccepted` | client/src/components/groups/GroupDetail.jsx:245 | a visible settle button means the server's settle guards accept the click |
| `GroupDetail.SettleHidesButton` | client/src/components/groups/GroupDetail.jsx:245 | after the settle, the user's first share shows no button |
| `GroupDetail.SecondShareCannotBeSettled` | client/src/components/groups/GroupDetail.jsx:245-256 | if the user's first share is settled, a button on a later share of theirs leads to a settle that changes nothing, and the button stays |
| `GroupDetail.DeleteButtonMatchesServer` | client/src/components/groups/GroupDetail.jsx:205 | the delete button is shown iff the server's ownership guard passes |
| `GroupDetail.RemoveButtonStricterThanServer` | client/src/components/groups/GroupDetail.jsx:165 | the remove button is shown only to the creator; the creator's own entry has no button, though the server allows removing it |
| `GroupDetail.DeletedIdsMatchServer` | client/src/components/groups/GroupDetail.jsx:59-63 | the client's id list after a delete is the server's filtered expense id list |
| `GroupDetail.IdsAppend` | client/src/components/groups/GroupDetail.jsx:46 | the ids of a concatenation are the concatenated ids |
| `GroupDetail.AddedIdsMatchServer` | client/src/components/groups/GroupDetail.jsx:45-47 | adding on the client appends the id, as the server appends it to the group |
| `GroupDetail.SettlementUpdateKeepsIds` | client/src/components/groups/GroupDetail.jsx:50-56 | an update carrying the same expense keeps the id list |
| `GroupDetail.DeleteIdempotent` | client/src/components/groups/GroupDetail.jsx:213-215 | deleting the same id twice is deleting it once |
| `GroupDetail.DeleteUndoesAdd` | client/src/components/groups/GroupDetail.jsx:45-63 | deleting an expense just added gives the same list as deleting it before the add |
| `GroupDetail.DeleteKeepsOrder` | client/src/components/groups/GroupDetail.jsx:59-63 | a delete distributes over concatenation, so the survivors keep their order |

## Left out

- The settlement and analysis algorithms (`buildDebtGraph`, `simplifyTransactions`, `findOptimalSettlementPlan`, `analyzeExpenseDistribution`). `server/algorithms/graphAlgorithms.js` is not part of this model. Their results are arguments of the two handlers, so the model says nothing about how they relate to the stored expenses.
- The share arithmetic of the add-expense form in `client/src/components/expenses/AddExpense.jsx`. It is floating-point division with rounding to two decimals, tied to the form state. The server does not check that shares sum to the amount, nor that share users are members, and neither does the model.
- Floating point: amounts are exact reals. Rounding in `amount / totalAmount * 100` is not modelled. Division by zero is modelled by its IEEE result.
- Persistence and asynchrony: each handler is one atomic update. Partial failure between `group.save()` and `user.save()`, and errors thrown by the database, are not modelled. The 500 answers that are modelled are a handler reading the name or the group list of a user who does not exist (`CreateGroup`, `GetUserGroups`) and a group saved with an empty name (`CreateGroup`). `AddExpense` keeps the same branch for a member who is not a user, which the store invariant makes unreachable.
- Ids are taken to be well-formed ObjectId strings. An id that is not one makes `findById` throw a cast error, which the handlers answer with 500; the model answers 404 for every id that names no document.
- Request-body validation other than the group name: a missing `splitAmong` (which throws at `splitAmong.map`), missing `description` or `amount`, or values the expense schema refuses all answer 500 in the source. The model takes these fields as well-typed arguments. The expense schema, `server/models/Expense.js`, is not part of this model.
- The `populate('expenses')` of getGroupById. The model returns the group with expense ids.
- Result order from the database. `GetUserGroups` and `GetGroupExpenses` return maps keyed by id.
- Ids of new documents: the database generates them. They are arguments, required to be unused.
- Users are neither created nor deleted by these handlers. Registration, login and the authentication middleware are foreign library code. The caller's id is an argument.
- The invitation flow, including the invitation status enum (pending, accepted, declined). It is not part of the modelled handlers.
- Handlers.Store.DeleteExpense: the body keeps the branch for an expense whose group no longer exists. The store invariant makes that branch unreachable, so the postcondition states only the case where the group exists.
- The socket transport: joining and leaving rooms, fan-out to the other clients of a group, and subscription management. The client's event payloads are arguments of its updaters.
- The client replacing its whole group state with the server's answer after adding a member, and the initial fetch of the group and its expenses.
- Rendering, confirmation dialogs, and the settlement and analysis pages (the force layout, charts and name truncation).
- Analysis totals are JavaScript objects. Their `Object.entries` enumeration order is taken as given: the totals arrive as sequences in that order.
