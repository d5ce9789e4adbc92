/**
  The consistency of the store that every handler preserves: unique emails,
  duplicate-free member lists, and user/group and group/expense references
  that agree in both directions.
 */
module StoreInvariants {
  import opened Records
  import opened Membership

  /** Emails identify users (the schema declares them unique). */
  ghost predicate EmailsUnique(users: map<Id, User>) {
    forall u, v :: u in users && v in users && users[u].email == users[v].email ==> u == v
  }

  /** No group lists the same user twice. */
  ghost predicate MembersDistinct(groups: map<Id, Group>) {
    forall g :: g in groups ==> NoDuplicateMembers(groups[g].members)
  }

  /** Every group in a user's group list exists and lists the user as a member. */
  ghost predicate GroupListsLinked(users: map<Id, User>, groups: map<Id, Group>) {
    forall u, g :: u in users && g in users[u].groups ==> g in groups && IsMember(groups[g].members, u)
  }

  /** Every member of a group is an existing user whose group list names the group. */
  ghost predicate MemberListsLinked(users: map<Id, User>, groups: map<Id, Group>) {
    forall g, u :: g in groups && IsMember(groups[g].members, u) ==> u in users && g in users[u].groups
  }

  /** A user's group list names exactly the existing groups that list the user
      as a member. */
  ghost predicate MembershipLinked(users: map<Id, User>, groups: map<Id, Group>) {
    GroupListsLinked(users, groups) && MemberListsLinked(users, groups)
  }

  /** A group's expense list names exactly the existing expenses of that group. */
  ghost predicate ExpensesLinked(groups: map<Id, Group>, expenses: map<Id, Expense>) {
    && (forall g, e :: g in groups && e in groups[g].expenses ==> e in expenses && expenses[e].group == g)
    && (forall e :: e in expenses ==> expenses[e].group in groups && e in groups[expenses[e].group].expenses)
  }

  /** The user ids of a member list. */
  ghost function UsersOf(members: seq<Member>): set<Id> {
    set m | m in members :: m.user
  }

  /** The users after `g` has been taken out of the group list of every user
      in `who`. */
  ghost function StripGroup(users: map<Id, User>, who: set<Id>, g: Id): (r: map<Id, User>)
    ensures r.Keys == users.Keys
    ensures forall u :: u in users ==> r[u].email == users[u].email
  {
    map u | u in users :: if u in who then users[u].(groups := WithoutId(users[u].groups, g)) else users[u]
  }

  ghost predicate Consistent(users: map<Id, User>, groups: map<Id, Group>, expenses: map<Id, Expense>) {
    && EmailsUnique(users)
    && MembersDistinct(groups)
    && MembershipLinked(users, groups)
    && ExpensesLinked(groups, expenses)
  }

  /** Taking the group out of one more user's list extends the stripped set. */
  lemma StripGroupStep(users: map<Id, User>, who: set<Id>, u: Id, g: Id)
    ensures var cur := StripGroup(users, who, g);
      StripGroup(users, who + {u}, g)
        == if u in cur then cur[u := cur[u].(groups := WithoutId(cur[u].groups, g))] else cur
  {
    var cur := StripGroup(users, who, g);
    if u in cur {
      WithoutIdIdempotent(users[u].groups, g);
      assert StripGroup(users, who + {u}, g) == cur[u := cur[u].(groups := WithoutId(cur[u].groups, g))];
    } else {
      assert StripGroup(users, who + {u}, g) == cur;
    }
  }

  /** removeMember keeps the store consistent. */
  lemma RemoveMemberKeepsConsistent(users: map<Id, User>, groups: map<Id, Group>, expenses: map<Id, Expense>,
                                    groupId: Id, userId: Id, users': map<Id, User>, groups': map<Id, Group>)
    requires Consistent(users, groups, expenses) && groupId in groups
    requires groups' == groups[groupId := groups[groupId].(members := WithoutUser(groups[groupId].members, userId))]
    requires users'.Keys == users.Keys
    requires forall u :: u in users && u != userId ==> users'[u] == users[u]
    requires userId in users ==> users'[userId] == users[userId].(groups := WithoutId(users[userId].groups, groupId))
    ensures Consistent(users', groups', expenses)
  {
    SameEmailsKeepUnique(users, users');
    assert MembersDistinct(groups') by {
      WithoutUserKeepsNoDuplicates(groups[groupId].members, userId);
    }
    RemoveMemberKeepsLinks(users, groups, groupId, userId, users', groups');
    SameExpenseListsKeepLinks(groups, groups', expenses);
  }

  lemma RemoveMemberKeepsLinks(users: map<Id, User>, groups: map<Id, Group>,
                               groupId: Id, userId: Id, users': map<Id, User>, groups': map<Id, Group>)
    requires MembershipLinked(users, groups) && groupId in groups
    requires groups' == groups[groupId := groups[groupId].(members := WithoutUser(groups[groupId].members, userId))]
    requires users'.Keys == users.Keys
    requires forall u :: u in users && u != userId ==> users'[u] == users[u]
    requires userId in users ==> users'[userId].groups == WithoutId(users[userId].groups, groupId)
    ensures MembershipLinked(users', groups')
  {
    RemoveMemberKeepsUserLinks(users, groups, groupId, userId, users', groups');
    RemoveMemberKeepsGroupLinks(users, groups, groupId, userId, users', groups');
  }

  lemma SameEmailsKeepUnique(users: map<Id, User>, users': map<Id, User>)
    requires EmailsUnique(users)
    requires users'.Keys == users.Keys && forall u :: u in users ==> users'[u].email == users[u].email
    ensures EmailsUnique(users')
  {
  }

  lemma SameExpenseListsKeepLinks(groups: map<Id, Group>, groups': map<Id, Group>, expenses: map<Id, Expense>)
    requires ExpensesLinked(groups, expenses)
    requires groups'.Keys == groups.Keys && forall g :: g in groups ==> groups'[g].expenses == groups[g].expenses
    ensures ExpensesLinked(groups', expenses)
  {
  }

  lemma RemoveMemberKeepsUserLinks(users: map<Id, User>, groups: map<Id, Group>,
                                   groupId: Id, userId: Id, users': map<Id, User>, groups': map<Id, Group>)
    requires MembershipLinked(users, groups) && groupId in groups
    requires groups' == groups[groupId := groups[groupId].(members := WithoutUser(groups[groupId].members, userId))]
    requires users'.Keys == users.Keys
    requires forall u :: u in users && u != userId ==> users'[u] == users[u]
    requires userId in users ==> users'[userId].groups == WithoutId(users[userId].groups, groupId)
    ensures GroupListsLinked(users', groups')
  {
    forall u, g | u in users' && g in users'[u].groups
      ensures g in groups' && IsMember(groups'[g].members, u)
    {
      assert g in users[u].groups;
      if u == userId { assert g != groupId; }
    }
  }

  lemma RemoveMemberKeepsGroupLinks(users: map<Id, User>, groups: map<Id, Group>,
                                    groupId: Id, userId: Id, users': map<Id, User>, groups': map<Id, Group>)
    requires MembershipLinked(users, groups) && groupId in groups
    requires groups' == groups[groupId := groups[groupId].(members := WithoutUser(groups[groupId].members, userId))]
    requires users'.Keys == users.Keys
    requires forall u :: u in users && u != userId ==> users'[u] == users[u]
    requires userId in users ==> users'[userId].groups == WithoutId(users[userId].groups, groupId)
    ensures MemberListsLinked(users', groups')
  {
    forall g, u | g in groups' && IsMember(groups'[g].members, u)
      ensures u in users' && g in users'[u].groups
    {
      assert IsMember(groups[g].members, u);
      if u == userId { assert g != groupId; }
    }
  }

  /** deleteGroup keeps the store consistent, and afterwards neither a user's
      group list nor an expense refers to the deleted group. */
  lemma DeleteGroupKeepsConsistent(users: map<Id, User>, groups: map<Id, Group>, expenses: map<Id, Expense>,
                                   groupId: Id, users': map<Id, User>, groups': map<Id, Group>,
                                   expenses': map<Id, Expense>)
    requires Consistent(users, groups, expenses) && groupId in groups
    requires users' == StripGroup(users, UsersOf(groups[groupId].members), groupId)
    requires groups' == groups - {groupId}
    requires expenses' == map e | e in expenses && expenses[e].group != groupId :: expenses[e]
    ensures Consistent(users', groups', expenses')
    ensures forall u :: u in users' ==> groupId !in users'[u].groups
    ensures forall e :: e in expenses' ==> expenses'[e].group != groupId
  {
    SameEmailsKeepUnique(users, users');
    assert MembersDistinct(groups');
    DeleteGroupKeepsLinks(users, groups, groupId, users', groups');
    DeleteGroupKeepsExpenseLinks(groups, expenses, groupId, groups', expenses');
  }

  lemma DeleteGroupKeepsLinks(users: map<Id, User>, groups: map<Id, Group>, groupId: Id,
                              users': map<Id, User>, groups': map<Id, Group>)
    requires MembershipLinked(users, groups) && groupId in groups
    requires users' == StripGroup(users, UsersOf(groups[groupId].members), groupId)
    requires groups' == groups - {groupId}
    ensures MembershipLinked(users', groups')
    ensures forall u :: u in users' ==> groupId !in users'[u].groups
  {
    DeleteGroupUnlinksUsers(users, groups, groupId, users');
    DeleteGroupKeepsUserLinks(users, groups, groupId, users', groups');
    DeleteGroupKeepsGroupLinks(users, groups, groupId, users', groups');
  }

  lemma DeleteGroupUnlinksUsers(users: map<Id, User>, groups: map<Id, Group>, groupId: Id, users': map<Id, User>)
    requires MembershipLinked(users, groups) && groupId in groups
    requires users' == StripGroup(users, UsersOf(groups[groupId].members), groupId)
    ensures forall u :: u in users' ==> groupId !in users'[u].groups
  {
    var who := UsersOf(groups[groupId].members);
    forall u | u in users && groupId in users[u].groups ensures u in who {
      var k :| 0 <= k < |groups[groupId].members| && groups[groupId].members[k].user == u;
      assert groups[groupId].members[k] in groups[groupId].members;
    }
  }

  lemma DeleteGroupKeepsUserLinks(users: map<Id, User>, groups: map<Id, Group>, groupId: Id,
                                  users': map<Id, User>, groups': map<Id, Group>)
    requires MembershipLinked(users, groups) && groupId in groups
    requires users' == StripGroup(users, UsersOf(groups[groupId].members), groupId)
    requires groups' == groups - {groupId}
    requires forall u :: u in users' ==> groupId !in users'[u].groups
    ensures GroupListsLinked(users', groups')
  {
    forall u, g | u in users' && g in users'[u].groups
      ensures g in groups' && IsMember(groups'[g].members, u)
    {
      assert g in users[u].groups;
    }
  }

  lemma DeleteGroupKeepsGroupLinks(users: map<Id, User>, groups: map<Id, Group>, groupId: Id,
                                   users': map<Id, User>, groups': map<Id, Group>)
    requires MembershipLinked(users, groups) && groupId in groups
    requires users' == StripGroup(users, UsersOf(groups[groupId].members), groupId)
    requires groups' == groups - {groupId}
    ensures MemberListsLinked(users', groups')
  {
    forall g, u | g in groups' && IsMember(groups'[g].members, u)
      ensures u in users' && g in users'[u].groups
    {
      assert g in users[u].groups;
    }
  }

  lemma DeleteGroupKeepsExpenseLinks(groups: map<Id, Group>, expenses: map<Id, Expense>, groupId: Id,
                                     groups': map<Id, Group>, expenses': map<Id, Expense>)
    requires ExpensesLinked(groups, expenses)
    requires groups' == groups - {groupId}
    requires expenses' == map e | e in expenses && expenses[e].group != groupId :: expenses[e]
    ensures ExpensesLinked(groups', expenses')
    ensures forall e :: e in expenses' ==> expenses'[e].group != groupId
  {
  }

  /** A change that leaves every group's member list alone keeps the member
      invariants. */
  lemma SameMembersKeepMemberInvariants(users: map<Id, User>, groups: map<Id, Group>, groups': map<Id, Group>)
    requires MembersDistinct(groups) && MembershipLinked(users, groups)
    requires groups'.Keys == groups.Keys
    requires forall g :: g in groups ==> groups'[g].members == groups[g].members
    ensures MembersDistinct(groups') && MembershipLinked(users, groups')
  {
  }

  /** deleteExpense keeps the store consistent, and afterwards no group lists
      the deleted expense. */
  lemma DeleteExpenseKeepsConsistent(users: map<Id, User>, groups: map<Id, Group>, expenses: map<Id, Expense>,
                                     expenseId: Id, groups': map<Id, Group>, expenses': map<Id, Expense>)
    requires Consistent(users, groups, expenses) && expenseId in expenses
    requires var g := expenses[expenseId].group;
      groups' == groups[g := groups[g].(expenses := WithoutId(groups[g].expenses, expenseId))]
    requires expenses' == expenses - {expenseId}
    ensures Consistent(users, groups', expenses')
    ensures forall g :: g in groups' ==> expenseId !in groups'[g].expenses
  {
    SameMembersKeepMemberInvariants(users, groups, groups');
    DeleteExpenseKeepsExpenseLinks(groups, expenses, expenseId, groups', expenses');
  }

  lemma DeleteExpenseKeepsExpenseLinks(groups: map<Id, Group>, expenses: map<Id, Expense>,
                                       expenseId: Id, groups': map<Id, Group>, expenses': map<Id, Expense>)
    requires ExpensesLinked(groups, expenses) && expenseId in expenses
    requires var g := expenses[expenseId].group;
      groups' == groups[g := groups[g].(expenses := WithoutId(groups[g].expenses, expenseId))]
    requires expenses' == expenses - {expenseId}
    ensures ExpensesLinked(groups', expenses')
    ensures forall g :: g in groups' ==> expenseId !in groups'[g].expenses
  {
    forall g | g in groups' ensures expenseId !in groups'[g].expenses {
      if g != expenses[expenseId].group {
        assert expenseId !in groups[g].expenses;
      }
    }
    forall g, e | g in groups' && e in groups'[g].expenses
      ensures e in expenses' && expenses'[e].group == g
    {
      assert e in groups[g].expenses;
    }
  }

  /** createGroup keeps the store consistent. */
  lemma CreateGroupKeepsConsistent(users: map<Id, User>, groups: map<Id, Group>, expenses: map<Id, Expense>,
                                   caller: Id, newId: Id, g: Group, users': map<Id, User>, groups': map<Id, Group>)
    requires Consistent(users, groups, expenses) && caller in users && newId !in groups
    requires g.members == [Member(caller, users[caller].name, users[caller].email)] && g.expenses == []
    requires groups' == groups[newId := g]
    requires users' == users[caller := users[caller].(groups := users[caller].groups + [newId])]
    ensures Consistent(users', groups', expenses)
  {
    SameEmailsKeepUnique(users, users');
    assert MembersDistinct(groups');
    CreateGroupKeepsLinks(users, groups, caller, newId, g, users', groups');
    NewGroupKeepsExpenseLinks(groups, expenses, newId, g, groups');
  }

  lemma CreateGroupKeepsLinks(users: map<Id, User>, groups: map<Id, Group>,
                              caller: Id, newId: Id, g: Group, users': map<Id, User>, groups': map<Id, Group>)
    requires MembershipLinked(users, groups) && caller in users && newId !in groups
    requires g.members == [Member(caller, users[caller].name, users[caller].email)]
    requires groups' == groups[newId := g]
    requires users' == users[caller := users[caller].(groups := users[caller].groups + [newId])]
    ensures MembershipLinked(users', groups')
  {
    CreateGroupKeepsGroupLists(users, groups, caller, newId, g, users', groups');
    CreateGroupKeepsMemberLists(users, groups, caller, newId, g, users', groups');
  }

  lemma CreateGroupKeepsGroupLists(users: map<Id, User>, groups: map<Id, Group>,
                                   caller: Id, newId: Id, g: Group, users': map<Id, User>, groups': map<Id, Group>)
    requires GroupListsLinked(users, groups) && caller in users && newId !in groups
    requires g.members == [Member(caller, users[caller].name, users[caller].email)]
    requires groups' == groups[newId := g]
    requires users' == users[caller := users[caller].(groups := users[caller].groups + [newId])]
    ensures GroupListsLinked(users', groups')
  {
    assert IsMember(g.members, caller) by {
      assert g.members[0].user == caller;
    }
    forall u, h | u in users' && h in users'[u].groups
      ensures h in groups' && IsMember(groups'[h].members, u)
    {
      if h != newId {
        assert h in users[u].groups;
      }
    }
  }

  lemma CreateGroupKeepsMemberLists(users: map<Id, User>, groups: map<Id, Group>,
                                    caller: Id, newId: Id, g: Group, users': map<Id, User>, groups': map<Id, Group>)
    requires MembershipLinked(users, groups) && caller in users && newId !in groups
    requires g.members == [Member(caller, users[caller].name, users[caller].email)]
    requires groups' == groups[newId := g]
    requires users' == users[caller := users[caller].(groups := users[caller].groups + [newId])]
    ensures MemberListsLinked(users', groups')
  {
    assert forall v :: IsMember(g.members, v) ==> v == caller;
    forall h, u | h in groups' && IsMember(groups'[h].members, u)
      ensures u in users' && h in users'[u].groups
    {
      if h != newId {
        assert h in users[u].groups;
      }
    }
  }

  /** Adding a group with no expenses keeps the expense links. */
  lemma NewGroupKeepsExpenseLinks(groups: map<Id, Group>, expenses: map<Id, Expense>, newId: Id, g: Group,
                                  groups': map<Id, Group>)
    requires ExpensesLinked(groups, expenses) && newId !in groups && g.expenses == []
    requires groups' == groups[newId := g]
    ensures ExpensesLinked(groups', expenses)
  {
    assert forall e :: e in expenses ==> expenses[e].group != newId;
  }

  /** addMember keeps the store consistent. */
  lemma AddMemberKeepsConsistent(users: map<Id, User>, groups: map<Id, Group>, expenses: map<Id, Expense>,
                                 groupId: Id, u: Id, users': map<Id, User>, groups': map<Id, Group>)
    requires Consistent(users, groups, expenses) && groupId in groups && u in users
    requires !IsMember(groups[groupId].members, u)
    requires groups' == groups[groupId := groups[groupId].(members := groups[groupId].members
                                 + [Member(u, users[u].name, users[u].email)])]
    requires users' == users[u := users[u].(groups := users[u].groups + [groupId])]
    ensures Consistent(users', groups', expenses)
  {
    SameEmailsKeepUnique(users, users');
    AppendNewMemberKeepsNoDuplicates(groups[groupId].members, Member(u, users[u].name, users[u].email));
    AddMemberKeepsLinks(users, groups, groupId, u, users', groups');
    SameExpenseListsKeepLinks(groups, groups', expenses);
  }

  lemma AddMemberKeepsLinks(users: map<Id, User>, groups: map<Id, Group>,
                            groupId: Id, u: Id, users': map<Id, User>, groups': map<Id, Group>)
    requires MembershipLinked(users, groups) && groupId in groups && u in users
    requires !IsMember(groups[groupId].members, u)
    requires groups' == groups[groupId := groups[groupId].(members := groups[groupId].members
                                 + [Member(u, users[u].name, users[u].email)])]
    requires users' == users[u := users[u].(groups := users[u].groups + [groupId])]
    ensures MembershipLinked(users', groups')
  {
    var old_ := groups[groupId].members;
    var new_ := groups'[groupId].members;
    assert forall v :: IsMember(new_, v) <==> IsMember(old_, v) || v == u by {
      forall v ensures IsMember(new_, v) <==> IsMember(old_, v) || v == u {
        if IsMember(new_, v) && v != u {
          var i :| 0 <= i < |new_| && new_[i].user == v;
          assert old_[i].user == v;
        }
        if IsMember(old_, v) {
          var i :| 0 <= i < |old_| && old_[i].user == v;
          assert new_[i].user == v;
        }
        if v == u {
          assert new_[|old_|].user == u;
        }
      }
    }
    forall w, h | w in users' && h in users'[w].groups
      ensures h in groups' && IsMember(groups'[h].members, w)
    {
      if !(w == u && h == groupId) {
        assert h in users[w].groups;
      }
    }
  }

  /** addExpense keeps the store consistent. */
  lemma AddExpenseKeepsConsistent(users: map<Id, User>, groups: map<Id, Group>, expenses: map<Id, Expense>,
                                  groupId: Id, newId: Id, e: Expense,
                                  groups': map<Id, Group>, expenses': map<Id, Expense>)
    requires Consistent(users, groups, expenses) && groupId in groups && newId !in expenses
    requires e.group == groupId
    requires groups' == groups[groupId := groups[groupId].(expenses := groups[groupId].expenses + [newId])]
    requires expenses' == expenses[newId := e]
    ensures Consistent(users, groups', expenses')
  {
    SameMembersKeepMemberInvariants(users, groups, groups');
    AddExpenseKeepsExpenseLinks(groups, expenses, groupId, newId, e, groups', expenses');
  }

  lemma AddExpenseKeepsExpenseLinks(groups: map<Id, Group>, expenses: map<Id, Expense>,
                                    groupId: Id, newId: Id, e: Expense,
                                    groups': map<Id, Group>, expenses': map<Id, Expense>)
    requires ExpensesLinked(groups, expenses) && groupId in groups && newId !in expenses
    requires e.group == groupId
    requires groups' == groups[groupId := groups[groupId].(expenses := groups[groupId].expenses + [newId])]
    requires expenses' == expenses[newId := e]
    ensures ExpensesLinked(groups', expenses')
  {
    assert forall g :: g in groups ==> newId !in groups[g].expenses;
    forall g, x | g in groups' && x in groups'[g].expenses
      ensures x in expenses' && expenses'[x].group == g
    {
      if x != newId {
        assert x in groups[g].expenses;
      }
    }
  }
}
