/**
  The group page of the web client: how it updates its copy of the expense
  list and the group when an event arrives or a local action succeeds, and
  when it shows the settle, delete and remove buttons. The lemmas relate
  these to the server's guards and to the server's own list updates.
 */
module GroupDetail {
  import opened Records
  import opened Seqs
  import opened Membership
  import opened ExpenseRules

  /** An expense as the client holds it: the document with its `_id`. */
  datatype ExpenseDoc = ExpenseDoc(id: Id, expense: Expense)

  /** The ids of the client's expense list, in order. */
  function Ids(list: seq<ExpenseDoc>): (ids: seq<Id>)
    ensures |ids| == |list|
    ensures forall i :: 0 <= i < |list| ==> ids[i] == list[i].id
  {
    if list == [] then [] else [list[0].id] + Ids(list[1..])
  }

  // ---------------------------------------------------------- list updaters

  /** `expense_added`: `[...prevExpenses, data.expense]`. */
  function OnExpenseAdded(list: seq<ExpenseDoc>, doc: ExpenseDoc): (r: seq<ExpenseDoc>)
    ensures |r| == |list| + 1 && r[..|list|] == list && r[|list|] == doc
  {
    list + [doc]
  }

  /** `settlement_update`: every expense whose `_id` is `expenseId` is replaced
      by the incoming document; the others stay where they are. */
  function OnSettlementUpdate(list: seq<ExpenseDoc>, expenseId: Id, doc: ExpenseDoc): (r: seq<ExpenseDoc>)
    ensures |r| == |list|
    ensures forall i :: 0 <= i < |list| ==> r[i] == if list[i].id == expenseId then doc else list[i]
  {
    if list == [] then []
    else [if list[0].id == expenseId then doc else list[0]] + OnSettlementUpdate(list[1..], expenseId, doc)
  }

  /** `expense_deleted` and the local delete: the list without the expenses
      whose `_id` is `expenseId`. */
  function OnExpenseDeleted(list: seq<ExpenseDoc>, expenseId: Id): (r: seq<ExpenseDoc>)
    ensures forall d :: d in r <==> d in list && d.id != expenseId
  {
    Filter(list, (d: ExpenseDoc) => d.id != expenseId)
  }

  /** The local member removal, `members.filter(member => member.user !== userId)`:
      the group without the entries of `userId`, removing from the member list
      exactly what the server's removeMember removes. */
  function RemoveMemberLocally(group: Group, userId: Id): (r: Group)
    ensures r.(members := group.members) == group
    ensures r.members == WithoutUser(group.members, userId)
    ensures !IsMember(r.members, userId)
    ensures forall v :: v != userId ==> (IsMember(r.members, v) <==> IsMember(group.members, v))
  {
    group.(members := Filter(group.members, (member: Member) => member.user != userId))
  }

  /** `member_removed`: applied only when the event is for the group on screen. */
  function OnMemberRemoved(group: Group, currentGroupId: Id, eventGroupId: Id, userId: Id): (r: Group)
    ensures eventGroupId != currentGroupId ==> r == group
    ensures eventGroupId == currentGroupId ==> r == RemoveMemberLocally(group, userId)
  {
    if eventGroupId == currentGroupId then RemoveMemberLocally(group, userId) else group
  }

  // -------------------------------------------------------- button guards

  /** "Mark as Settled" is shown on a share of the current user that is not
      settled, of an expense the current user did not pay. */
  predicate ShowSettleButton(e: Expense, split: Split, me: Id) {
    split.user == me && !split.settled && e.paidBy.user != me
  }

  /** "Delete" is shown on the expenses the current user paid. */
  predicate ShowDeleteButton(e: Expense, me: Id) {
    e.paidBy.user == me
  }

  /** "Remove" is shown to the group's creator, on every member but themself. */
  predicate ShowRemoveButton(group: Group, member: Member, me: Id) {
    group.createdBy == me && member.user != me
  }

  // ----------------------------------------- agreement with the server guards

  /** A settle click is never refused by the server's guards. */
  lemma SettleButtonIsAccepted(e: Expense, k: nat, me: Id)
    requires k < |e.splitAmong| && ShowSettleButton(e, e.splitAmong[k], me)
    ensures SettleCheck(e, me) == Done
  {
    assert FindSplit(e.splitAmong, me).Some?;
  }

  /** After the settle the button click leads to, the user's first share is
      settled and no longer offers the button. */
  lemma SettleHidesButton(e: Expense, k: nat, me: Id)
    requires k < |e.splitAmong| && ShowSettleButton(e, e.splitAmong[k], me)
    ensures var i := FindSplit(e.splitAmong, me).value;
      !ShowSettleButton(Settled(e, me), Settled(e, me).splitAmong[i], me)
  {
    assert FindSplit(e.splitAmong, me).Some?;
    SettleMarksFoundShare(e.splitAmong, me);
  }

  /** When the current user holds two shares of one expense and the first is
      already settled, the button stays on the second, and the settle it leads
      to changes nothing: the server always settles the first share. */
  lemma SecondShareCannotBeSettled(e: Expense, k: nat, me: Id)
    requires k < |e.splitAmong| && ShowSettleButton(e, e.splitAmong[k], me)
    requires e.splitAmong[FindSplit(e.splitAmong, me).value].settled
    ensures FindSplit(e.splitAmong, me).value < k
    ensures Settled(e, me) == e
    ensures ShowSettleButton(Settled(e, me), Settled(e, me).splitAmong[k], me)
  {
    SettleAlreadySettled(e.splitAmong, me);
  }

  /** The delete button is shown exactly when the server lets the user delete. */
  lemma DeleteButtonMatchesServer(e: Expense, me: Id)
    ensures ShowDeleteButton(e, me) <==> DeleteCheck(e, me) == Done
  {
  }

  /** The remove button is shown only to the creator, whom the server lets
      remove members; the server also lets the creator remove themself, for
      which no button is shown. */
  lemma RemoveButtonStricterThanServer(group: Group, member: Member, me: Id)
    ensures ShowRemoveButton(group, member, me) ==> group.createdBy == me
    ensures group.createdBy == me && member.user == me ==> !ShowRemoveButton(group, member, me)
  {
  }

  // --------------------------------- agreement with the server's list updates

  /** Deleting on the client removes from the id list exactly what the server
      removes from the group's expense list. */
  lemma {:induction false} DeletedIdsMatchServer(list: seq<ExpenseDoc>, expenseId: Id)
    ensures Ids(OnExpenseDeleted(list, expenseId)) == WithoutId(Ids(list), expenseId)
  {
    if list != [] {
      DeletedIdsMatchServer(list[1..], expenseId);
      FilterAppend([list[0]], list[1..], (d: ExpenseDoc) => d.id != expenseId);
      FilterAppend([list[0].id], Ids(list[1..]), (y: Id) => y != expenseId);
      assert [list[0]] + list[1..] == list;
      assert [list[0].id] + Ids(list[1..]) == Ids(list);
      IdsAppend([list[0]], OnExpenseDeleted(list[1..], expenseId));
    }
  }

  lemma {:induction false} IdsAppend(a: seq<ExpenseDoc>, b: seq<ExpenseDoc>)
    ensures Ids(a + b) == Ids(a) + Ids(b)
  {
    assert |Ids(a + b)| == |Ids(a) + Ids(b)|;
    forall i | 0 <= i < |a + b| ensures Ids(a + b)[i] == (Ids(a) + Ids(b))[i] {
      if i < |a| { assert (a + b)[i] == a[i]; } else { assert (a + b)[i] == b[i - |a|]; }
    }
  }

  /** Adding on the client appends to the id list as the server does. */
  lemma AddedIdsMatchServer(list: seq<ExpenseDoc>, doc: ExpenseDoc)
    ensures Ids(OnExpenseAdded(list, doc)) == Ids(list) + [doc.id]
  {
    IdsAppend(list, [doc]);
  }

  /** A settlement update that carries the same expense keeps the id list. */
  lemma SettlementUpdateKeepsIds(list: seq<ExpenseDoc>, doc: ExpenseDoc)
    ensures Ids(OnSettlementUpdate(list, doc.id, doc)) == Ids(list)
  {
  }

  /** Applying the same delete twice changes nothing more than applying it once. */
  lemma DeleteIdempotent(list: seq<ExpenseDoc>, expenseId: Id)
    ensures OnExpenseDeleted(OnExpenseDeleted(list, expenseId), expenseId) == OnExpenseDeleted(list, expenseId)
  {
    FilterIdempotent(list, (d: ExpenseDoc) => d.id != expenseId);
  }

  /** Deleting an expense just added leaves the list as deleting it before. */
  lemma DeleteUndoesAdd(list: seq<ExpenseDoc>, doc: ExpenseDoc)
    ensures OnExpenseDeleted(OnExpenseAdded(list, doc), doc.id) == OnExpenseDeleted(list, doc.id)
  {
    FilterAppend(list, [doc], (d: ExpenseDoc) => d.id != doc.id);
    assert Filter([doc], (d: ExpenseDoc) => d.id != doc.id) == [];
  }

  /** The expenses that survive a delete keep their relative order. */
  lemma DeleteKeepsOrder(a: seq<ExpenseDoc>, b: seq<ExpenseDoc>, expenseId: Id)
    ensures OnExpenseDeleted(a + b, expenseId) == OnExpenseDeleted(a, expenseId) + OnExpenseDeleted(b, expenseId)
  {
    FilterAppend(a, b, (d: ExpenseDoc) => d.id != expenseId);
  }
}
