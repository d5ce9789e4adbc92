/**
  The group and expense request handlers over an in-memory store of three
  collections: users, groups and expenses, each keyed by document id.

  Each handler runs atomically: it either answers with a failure and leaves the
  store as it was, or performs all its updates. The id of a newly created
  document is chosen by the database and is an argument here. Results of the
  settlement and analysis algorithms are arguments too.
 */
module Handlers {
  import opened Records
  import opened Seqs
  import opened Membership
  import opened ExpenseRules
  import opened Reports
  import opened StoreInvariants

  class Store {
    var users: map<Id, User>
    var groups: map<Id, Group>
    var expenses: map<Id, Expense>

    ghost predicate Valid()
      reads this
    {
      Consistent(users, groups, expenses)
    }

    constructor (users: map<Id, User>)
      requires EmailsUnique(users)
      requires forall u :: u in users ==> users[u].groups == []
      ensures Valid()
      ensures this.users == users && groups == map[] && expenses == map[]
    {
      this.users := users;
      groups := map[];
      expenses := map[];
    }

    // ---------------------------------------------------------------- groups

    /** createGroup: a new group whose only member is the caller, who also
        becomes its creator; the group id is appended to the caller's groups.
        A missing caller, or an empty name (which the schema's `required`
        refuses when the group is saved), is a 500 that changes nothing. */
    method CreateGroup(caller: Id, name: string, description: string, newId: Id) returns (r: Result<Group>)
      requires Valid() && newId !in groups
      modifies this
      ensures Valid()
      ensures caller !in old(users) || name == [] ==> r == Err(ServerError) && unchanged(this)
      ensures caller in old(users) && name != [] ==>
        var u := old(users)[caller];
        && r == Ok(Group(name, description, [Member(caller, u.name, u.email)], [], caller))
        && groups == old(groups)[newId := r.value]
        && users == old(users)[caller := u.(groups := u.groups + [newId])]
        && expenses == old(expenses)
    {
      if caller !in users || name == [] {
        return Err(ServerError);
      }
      var u := users[caller];
      var g := Group(name, description, [Member(caller, u.name, u.email)], [], caller);
      groups := groups[newId := g];
      users := users[caller := u.(groups := u.groups + [newId])];
      r := Ok(g);
      CreateGroupKeepsConsistent(old(users), old(groups), expenses, caller, newId, g, users, groups);
    }

    /** getUserGroups: the existing groups named in the caller's group list. */
    method GetUserGroups(caller: Id) returns (r: Result<map<Id, Group>>)
      ensures caller !in users ==> r == Err(ServerError)
      ensures caller in users ==>
        && r.Ok?
        && r.value.Keys == (set g | g in users[caller].groups && g in groups)
        && forall g :: g in r.value ==> r.value[g] == groups[g]
    {
      if caller !in users {
        return Err(ServerError);
      }
      var mine := users[caller].groups;
      r := Ok(map g | g in mine && g in groups :: groups[g]);
    }

    /** getGroupById: 404 for a missing group before 403 for a non-member. */
    method GetGroupById(caller: Id, groupId: Id) returns (r: Result<Group>)
      ensures groupId !in groups ==> r == Err(GroupNotFound)
      ensures groupId in groups && !IsMember(groups[groupId].members, caller) ==> r == Err(NotAuthorized)
      ensures groupId in groups && IsMember(groups[groupId].members, caller) ==> r == Ok(groups[groupId])
    {
      if groupId !in groups {
        return Err(GroupNotFound);
      }
      var g := groups[groupId];
      if !IsMember(g.members, caller) {
        return Err(NotAuthorized);
      }
      r := Ok(g);
    }

    /** addMember: 404 for an unknown email, then 404 for a missing group, then
        400 for an existing member; otherwise the user is appended to the
        members and the group to the user's groups. The caller is not checked. */
    method AddMember(caller: Id, groupId: Id, email: string) returns (r: Result<Group>)
      requires Valid()
      modifies this
      ensures Valid()
      ensures r.Err? ==> unchanged(this)
      ensures (forall u :: u in old(users) ==> old(users)[u].email != email) <==> r == Err(UserNotFound)
      ensures (exists u :: u in old(users) && old(users)[u].email == email) && groupId !in old(groups)
        ==> r == Err(GroupNotFound)
      ensures r.Ok? ==> exists u ::
        && u in old(users) && old(users)[u].email == email && groupId in old(groups)
        && !IsMember(old(groups)[groupId].members, u)
        && var user, g := old(users)[u], old(groups)[groupId];
        && r.value == g.(members := g.members + [Member(u, user.name, user.email)])
        && groups == old(groups)[groupId := r.value]
        && users == old(users)[u := user.(groups := user.groups + [groupId])]
      ensures r.Ok? ==> expenses == old(expenses)
      ensures (exists u :: u in old(users) && old(users)[u].email == email && groupId in old(groups)
                 && !IsMember(old(groups)[groupId].members, u)) ==> r.Ok?
      ensures r == Err(AlreadyMember) <==>
        exists u :: u in old(users) && old(users)[u].email == email && groupId in old(groups)
          && IsMember(old(groups)[groupId].members, u)
    {
      if forall u :: u in users ==> users[u].email != email {
        return Err(UserNotFound);
      }
      var u :| u in users && users[u].email == email;
      if groupId !in groups {
        return Err(GroupNotFound);
      }
      var g := groups[groupId];
      if IsMember(g.members, u) {
        return Err(AlreadyMember);
      }
      var user := users[u];
      var g' := g.(members := g.members + [Member(u, user.name, user.email)]);
      groups := groups[groupId := g'];
      users := users[u := user.(groups := user.groups + [groupId])];
      r := Ok(g');
      AddMemberKeepsConsistent(old(users), old(groups), expenses, groupId, u, users, groups);
    }

    /** removeMember: 404 for a missing group, 403 unless the caller created
        the group. Then every entry of `userId` leaves the member list and the
        group leaves that user's group list. Removing the creator is allowed. */
    method RemoveMember(caller: Id, groupId: Id, userId: Id) returns (r: Result<Group>)
      requires Valid()
      modifies this
      ensures Valid()
      ensures groupId !in old(groups) ==> r == Err(GroupNotFound) && unchanged(this)
      ensures groupId in old(groups) && old(groups)[groupId].createdBy != caller
        ==> r == Err(NotAuthorized) && unchanged(this)
      ensures groupId in old(groups) && old(groups)[groupId].createdBy == caller ==>
        var g := old(groups)[groupId];
        && r == Ok(g.(members := WithoutUser(g.members, userId)))
        && groups == old(groups)[groupId := r.value]
        && users == (if userId in old(users)
                     then old(users)[userId := old(users)[userId].(groups := WithoutId(old(users)[userId].groups, groupId))]
                     else old(users))
        && expenses == old(expenses)
    {
      if groupId !in groups {
        return Err(GroupNotFound);
      }
      var g := groups[groupId];
      if g.createdBy != caller {
        return Err(NotAuthorized);
      }
      var g' := g.(members := WithoutUser(g.members, userId));
      groups := groups[groupId := g'];
      if userId in users {
        var user := users[userId];
        users := users[userId := user.(groups := WithoutId(user.groups, groupId))];
      }
      r := Ok(g');
      RemoveMemberKeepsConsistent(old(users), old(groups), expenses, groupId, userId, users, groups);
    }

    /** deleteGroup: 404 for a missing group, 403 unless the caller created it.
        Then the group leaves the group list of each of its members, its
        expenses are deleted and the group itself is deleted. */
    method DeleteGroup(caller: Id, groupId: Id) returns (r: Outcome)
      requires Valid()
      modifies this
      ensures Valid()
      ensures groupId !in old(groups) ==> r == Refused(GroupNotFound) && unchanged(this)
      ensures groupId in old(groups) && old(groups)[groupId].createdBy != caller
        ==> r == Refused(NotAuthorized) && unchanged(this)
      ensures groupId in old(groups) && old(groups)[groupId].createdBy == caller ==>
        && r == Done
        && groups == old(groups) - {groupId}
        && expenses == (map e | e in old(expenses) && old(expenses)[e].group != groupId :: old(expenses)[e])
        && users == StripGroup(old(users), UsersOf(old(groups)[groupId].members), groupId)
      ensures r == Done ==> forall u :: u in users ==> groupId !in users[u].groups
      ensures r == Done ==> forall e :: e in expenses ==> expenses[e].group != groupId
    {
      if groupId !in groups {
        return Refused(GroupNotFound);
      }
      var g := groups[groupId];
      if g.createdBy != caller {
        return Refused(NotAuthorized);
      }
      UnlinkMembers(g.members, groupId);
      expenses := map e | e in expenses && expenses[e].group != groupId :: expenses[e];
      groups := groups - {groupId};
      r := Done;
      DeleteGroupKeepsConsistent(old(users), old(groups), old(expenses), groupId, users, groups, expenses);
    }

    /** The loop of deleteGroup: for each member entry, in order, the group
        leaves the group list of that user, if the user exists. */
    method UnlinkMembers(members: seq<Member>, groupId: Id)
      modifies this
      ensures users == StripGroup(old(users), UsersOf(members), groupId)
      ensures groups == old(groups) && expenses == old(expenses)
    {
      var i := 0;
      while i < |members|
        invariant 0 <= i <= |members|
        invariant users == StripGroup(old(users), UsersOf(members[..i]), groupId)
        invariant groups == old(groups) && expenses == old(expenses)
      {
        var u := members[i].user;
        assert UsersOf(members[..i + 1]) == UsersOf(members[..i]) + {u} by {
          assert members[..i + 1] == members[..i] + [members[i]];
        }
        StripGroupStep(old(users), UsersOf(members[..i]), u, groupId);
        if u in users {
          users := users[u := users[u].(groups := WithoutId(users[u].groups, groupId))];
        }
        i := i + 1;
      }
      assert members[..i] == members;
    }

    // -------------------------------------------------------------- expenses

    /** addExpense: 404 for a missing group, 403 for a caller who is not a
        member. Then a new expense paid by the caller is stored and its id is
        appended to the group's expense list. */
    method AddExpense(caller: Id, groupId: Id, description: string, amount: real,
                      requests: seq<SplitRequest>, category: Option<string>, newId: Id)
      returns (r: Result<Expense>)
      requires Valid() && newId !in expenses
      modifies this
      ensures Valid()
      ensures groupId !in old(groups) ==> r == Err(GroupNotFound) && unchanged(this)
      ensures groupId in old(groups) && !IsMember(old(groups)[groupId].members, caller)
        ==> r == Err(NotAuthorized) && unchanged(this)
      ensures groupId in old(groups) && IsMember(old(groups)[groupId].members, caller) ==>
        var g := old(groups)[groupId];
        && r == Ok(NewExpense(description, amount, caller, old(users)[caller].name, requests, groupId, category))
        && expenses == old(expenses)[newId := r.value]
        && groups == old(groups)[groupId := g.(expenses := g.expenses + [newId])]
        && users == old(users)
    {
      if groupId !in groups {
        return Err(GroupNotFound);
      }
      var g := groups[groupId];
      if !IsMember(g.members, caller) {
        return Err(NotAuthorized);
      }
      if caller !in users {
        return Err(ServerError);
      }
      var e := NewExpense(description, amount, caller, users[caller].name, requests, groupId, category);
      expenses := expenses[newId := e];
      groups := groups[groupId := g.(expenses := g.expenses + [newId])];
      r := Ok(e);
      AddExpenseKeepsConsistent(users, old(groups), old(expenses), groupId, newId, e, groups, expenses);
    }

    /** getGroupExpenses: 404, then 403 for a non-member; otherwise every
        expense whose group is this group. */
    method GetGroupExpenses(caller: Id, groupId: Id) returns (r: Result<map<Id, Expense>>)
      ensures groupId !in groups ==> r == Err(GroupNotFound)
      ensures groupId in groups && !IsMember(groups[groupId].members, caller) ==> r == Err(NotAuthorized)
      ensures groupId in groups && IsMember(groups[groupId].members, caller) ==>
        && r.Ok?
        && (forall e :: e in r.value <==> e in expenses && expenses[e].group == groupId)
        && (forall e :: e in r.value ==> r.value[e] == expenses[e])
    {
      if groupId !in groups {
        return Err(GroupNotFound);
      }
      if !IsMember(groups[groupId].members, caller) {
        return Err(NotAuthorized);
      }
      r := Ok(map e | e in expenses && expenses[e].group == groupId :: expenses[e]);
    }

    /** getSettlementPlan: 404, then 403 for a non-member; otherwise the plan
        the settlement algorithm produced, in its order and length, with each
        id's name taken from the group's member list. */
    method GetSettlementPlan(caller: Id, groupId: Id, plan: seq<Settlement>)
      returns (r: Result<seq<FormattedSettlement>>)
      ensures groupId !in groups ==> r == Err(GroupNotFound)
      ensures groupId in groups && !IsMember(groups[groupId].members, caller) ==> r == Err(NotAuthorized)
      ensures groupId in groups && IsMember(groups[groupId].members, caller) ==>
        var members := groups[groupId].members;
        && r.Ok? && |r.value| == |plan|
        && forall i :: 0 <= i < |plan| ==>
             r.value[i] == FormattedSettlement(Party(plan[i].from, NameOf(members, plan[i].from)),
                                               Party(plan[i].to, NameOf(members, plan[i].to)),
                                               plan[i].amount)
    {
      if groupId !in groups {
        return Err(GroupNotFound);
      }
      var g := groups[groupId];
      if !IsMember(g.members, caller) {
        return Err(NotAuthorized);
      }
      var names := BuildUserMap(g.members);
      r := Ok(FormatPlan(plan, names));
    }

    /** getExpenseAnalysis: 404, then 403 for a non-member; otherwise the
        algorithm's totals with names attached and each amount's percentage
        of the total. */
    method GetExpenseAnalysis(caller: Id, groupId: Id, analysis: Analysis)
      returns (r: Result<FormattedAnalysis>)
      ensures groupId !in groups ==> r == Err(GroupNotFound)
      ensures groupId in groups && !IsMember(groups[groupId].members, caller) ==> r == Err(NotAuthorized)
      ensures groupId in groups && IsMember(groups[groupId].members, caller) ==>
        var members, total := groups[groupId].members, analysis.totalAmount;
        && r.Ok?
        && r.value.totalAmount == total
        && |r.value.userExpenses| == |analysis.userExpenses|
        && (forall i :: 0 <= i < |analysis.userExpenses| ==>
              var (id, amount) := analysis.userExpenses[i];
              r.value.userExpenses[i] == UserShare(id, NameOf(members, id), amount, Percentage(amount, total)))
        && r.value.categoryExpenses == CategoryShares(analysis.categoryExpenses, total)
    {
      if groupId !in groups {
        return Err(GroupNotFound);
      }
      var g := groups[groupId];
      if !IsMember(g.members, caller) {
        return Err(NotAuthorized);
      }
      var names := BuildUserMap(g.members);
      r := Ok(FormatAnalysis(analysis, names));
    }

    /** settleExpense: 404 for a missing expense; 403 when the caller holds no
        share; 403 when the caller paid. Otherwise the caller's first share is
        marked settled and nothing else changes. */
    method SettleExpense(caller: Id, expenseId: Id) returns (r: Result<Expense>)
      requires Valid()
      modifies this
      ensures Valid()
      ensures r.Err? ==> unchanged(this)
      ensures expenseId !in old(expenses) ==> r == Err(ExpenseNotFound)
      ensures expenseId in old(expenses) ==>
        var e := old(expenses)[expenseId];
        && (FindSplit(e.splitAmong, caller).None? ==> r == Err(NotAuthorized))
        && (FindSplit(e.splitAmong, caller).Some? && e.paidBy.user == caller ==> r == Err(PayerCannotSettle))
        && (SettleCheck(e, caller) == Done ==>
              && r == Ok(Settled(e, caller))
              && expenses == old(expenses)[expenseId := r.value]
              && groups == old(groups) && users == old(users))
    {
      if expenseId !in expenses {
        return Err(ExpenseNotFound);
      }
      var e := expenses[expenseId];
      var check := SettleCheck(e, caller);
      if check.Refused? {
        return Err(check.failure);
      }
      var e' := Settled(e, caller);
      expenses := expenses[expenseId := e'];
      r := Ok(e');
    }

    /** deleteExpense: 404 for a missing expense, 403 unless the caller paid.
        Then the id leaves its group's expense list, if that group still
        exists, and the expense is deleted. */
    method DeleteExpense(caller: Id, expenseId: Id) returns (r: Outcome)
      requires Valid()
      modifies this
      ensures Valid()
      ensures r.Refused? ==> unchanged(this)
      ensures expenseId !in old(expenses) ==> r == Refused(ExpenseNotFound)
      ensures expenseId in old(expenses) ==>
        var e := old(expenses)[expenseId];
        && (e.paidBy.user != caller ==> r == Refused(NotAuthorized))
        && (e.paidBy.user == caller ==>
              && r == Done
              && expenses == old(expenses) - {expenseId}
              && users == old(users)
              && e.group in old(groups)
              && groups == old(groups)[e.group := old(groups)[e.group].(expenses := WithoutId(old(groups)[e.group].expenses, expenseId))])
      ensures r == Done ==> forall g :: g in groups ==> expenseId !in groups[g].expenses
    {
      if expenseId !in expenses {
        return Refused(ExpenseNotFound);
      }
      var e := expenses[expenseId];
      var check := DeleteCheck(e, caller);
      if check.Refused? {
        return check;
      }
      if e.group in groups {
        var g := groups[e.group];
        groups := groups[e.group := g.(expenses := WithoutId(g.expenses, expenseId))];
      }
      expenses := expenses - {expenseId};
      r := Done;
      DeleteExpenseKeepsConsistent(users, old(groups), old(expenses), expenseId, groups, expenses);
    }
  }
}
