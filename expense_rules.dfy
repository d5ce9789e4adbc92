/**
  The pure parts of the expense handlers: building a new expense document,
  finding and settling the caller's share, and the ownership checks that
  guard settling and deleting an expense.
 */
module ExpenseRules {
  import opened Records

  /** `category || 'Other'`: a missing or empty category becomes "Other". */
  function CategoryOrDefault(category: Option<string>): (c: string)
    ensures c != []
    ensures category.Some? && category.value != [] ==> c == category.value
    ensures (category.None? || category.value == []) ==> c == "Other"
  {
    if category.Some? && category.value != [] then category.value else "Other"
  }

  /** The shares of a new expense: one per requested share, in the same order,
      with user, name and amount copied and nothing settled yet. */
  function NewSplits(requests: seq<SplitRequest>): (splits: seq<Split>)
    ensures |splits| == |requests|
    ensures forall i :: 0 <= i < |requests| ==>
      splits[i] == Split(requests[i].userId, requests[i].name, requests[i].amount, false)
  {
    if requests == [] then []
    else
      var r := requests[0];
      [Split(r.userId, r.name, r.amount, false)] + NewSplits(requests[1..])
  }

  /** The expense document that `addExpense` creates: the caller is the payer,
      every share starts unsettled and the category defaults to "Other". */
  function NewExpense(description: string, amount: real, caller: Id, callerName: string,
                      requests: seq<SplitRequest>, groupId: Id, category: Option<string>): (e: Expense)
    ensures e.paidBy == Payer(caller, callerName) && e.group == groupId
    ensures e.description == description && e.amount == amount
    ensures e.splitAmong == NewSplits(requests)
    ensures forall s :: s in e.splitAmong ==> !s.settled
    ensures e.category == CategoryOrDefault(category)
  {
    Expense(description, amount, Payer(caller, callerName), NewSplits(requests), groupId,
            CategoryOrDefault(category))
  }

  /** `splitAmong.find(split => split.user == caller)`, as the index of the
      first share that belongs to `caller`, or None when there is none. */
  function FindSplit(splits: seq<Split>, caller: Id): (r: Option<nat>)
    ensures r.Some? ==> r.value < |splits| && splits[r.value].user == caller
    ensures r.Some? ==> forall j :: 0 <= j < r.value ==> splits[j].user != caller
    ensures r.None? <==> forall j :: 0 <= j < |splits| ==> splits[j].user != caller
  {
    if splits == [] then None
    else if splits[0].user == caller then Some(0)
    else match FindSplit(splits[1..], caller)
      case None => None
      case Some(i) => Some(i + 1)
  }

  /** Mark the caller's first share as settled (`userSplit.settled = true`). */
  function SettleFirst(splits: seq<Split>, caller: Id): (r: seq<Split>)
    ensures |r| == |splits|
    ensures forall j :: 0 <= j < |splits| ==>
      r[j] == if FindSplit(splits, caller) == Some(j) then splits[j].(settled := true) else splits[j]
  {
    match FindSplit(splits, caller)
    case None => splits
    case Some(i) => splits[i := splits[i].(settled := true)]
  }

  /** The guards of `settleExpense`, in the handler's order: the caller must
      hold a share, and must not be the payer. */
  function SettleCheck(e: Expense, caller: Id): (o: Outcome)
    ensures o == Done <==> FindSplit(e.splitAmong, caller).Some? && e.paidBy.user != caller
    ensures FindSplit(e.splitAmong, caller).None? ==> o == Refused(NotAuthorized)
  {
    if FindSplit(e.splitAmong, caller).None? then Refused(NotAuthorized)
    else if e.paidBy.user == caller then Refused(PayerCannotSettle)
    else Done
  }

  /** The expense after a successful settle by `caller`. */
  function Settled(e: Expense, caller: Id): (r: Expense)
    ensures r.(splitAmong := e.splitAmong) == e
    ensures |r.splitAmong| == |e.splitAmong|
  {
    e.(splitAmong := SettleFirst(e.splitAmong, caller))
  }

  /** The guard of `deleteExpense`: only the payer may delete. */
  function DeleteCheck(e: Expense, caller: Id): (o: Outcome)
    ensures o == Done <==> e.paidBy.user == caller
    ensures o != Done ==> o == Refused(NotAuthorized)
  {
    if e.paidBy.user != caller then Refused(NotAuthorized) else Done
  }

  /** Settling changes the settled flag of at most one share, and of no share
      that belongs to someone else; users, names and amounts stay. */
  lemma SettleOnlyTouchesCallersShare(splits: seq<Split>, caller: Id, j: nat)
    requires j < |splits|
    ensures SettleFirst(splits, caller)[j].(settled := splits[j].settled) == splits[j]
    ensures splits[j].user != caller ==> SettleFirst(splits, caller)[j] == splits[j]
    ensures SettleFirst(splits, caller)[j].settled
        <==> splits[j].settled || FindSplit(splits, caller) == Some(j)
  {
  }

  /** After a settle by `caller`, the share `find` returns is settled. */
  lemma SettleMarksFoundShare(splits: seq<Split>, caller: Id)
    requires FindSplit(splits, caller).Some?
    ensures FindSplit(SettleFirst(splits, caller), caller) == FindSplit(splits, caller)
    ensures SettleFirst(splits, caller)[FindSplit(splits, caller).value].settled
  {
    FindSplitDependsOnUsers(splits, SettleFirst(splits, caller), caller);
  }

  /** Settling twice is settling once. */
  lemma SettleIdempotent(splits: seq<Split>, caller: Id)
    ensures SettleFirst(SettleFirst(splits, caller), caller) == SettleFirst(splits, caller)
  {
    var once := SettleFirst(splits, caller);
    FindSplitDependsOnUsers(splits, once, caller);
    var twice := SettleFirst(once, caller);
    assert forall j :: 0 <= j < |splits| ==> twice[j] == once[j];
  }

  /** Settling a share that is already settled changes nothing. */
  lemma SettleAlreadySettled(splits: seq<Split>, caller: Id)
    requires FindSplit(splits, caller).Some? && splits[FindSplit(splits, caller).value].settled
    ensures SettleFirst(splits, caller) == splits
  {
    var r := SettleFirst(splits, caller);
    assert forall j :: 0 <= j < |splits| ==> r[j] == splits[j];
  }

  /** `find` looks only at the users of the shares. */
  lemma FindSplitDependsOnUsers(s: seq<Split>, t: seq<Split>, caller: Id)
    requires |s| == |t| && forall j :: 0 <= j < |s| ==> s[j].user == t[j].user
    ensures FindSplit(s, caller) == FindSplit(t, caller)
  {
    var a, b := FindSplit(s, caller), FindSplit(t, caller);
    if a.Some? {
      assert t[a.value].user == caller;
    }
    if b.Some? {
      assert s[b.value].user == caller;
    }
  }
}
