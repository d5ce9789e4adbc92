/**
  The output formatting of the settlement-plan and expense-analysis handlers.

  The settlement and analysis algorithms themselves are not part of this model;
  their results reach these functions as arguments. The handlers only copy
  them, attach member names looked up in a name table built from the group's
  member list, and compute percentages.
 */
module Reports {
  import opened Records
  import opened Membership

  /** One payment instruction as the settlement algorithm returns it. */
  datatype Settlement = Settlement(from: Id, to: Id, amount: real)

  /** A participant of a formatted instruction; the name is None where the
      lookup in the name table gives `undefined`. */
  datatype Party = Party(id: Id, name: Option<string>)

  datatype FormattedSettlement = FormattedSettlement(from: Party, to: Party, amount: real)

  /** A JavaScript number resulting from a division: a finite value, or one of
      the values a division by zero produces. */
  datatype Number = Finite(value: real) | PositiveInfinity | NegativeInfinity | NaN

  /** The result of the analysis algorithm: the entries of its per-user and
      per-category total objects, in enumeration order, and the grand total. */
  datatype Analysis = Analysis(
    userExpenses: seq<(Id, real)>,
    categoryExpenses: seq<(string, real)>,
    totalAmount: real)

  datatype UserShare = UserShare(userId: Id, name: Option<string>, amount: real, percentage: Number)
  datatype CategoryShare = CategoryShare(category: string, amount: real, percentage: Number)

  datatype FormattedAnalysis = FormattedAnalysis(
    userExpenses: seq<UserShare>,
    categoryExpenses: seq<CategoryShare>,
    totalAmount: real)

  /** The name the table built by `members.forEach(m => userMap[m.user] = m.name)`
      holds for `id`: the name of the LAST entry of that user, since later
      entries overwrite earlier ones. */
  function NameOf(members: seq<Member>, id: Id): (r: Option<string>)
    ensures r.Some? <==> IsMember(members, id)
    ensures r.Some? ==> exists i :: 0 <= i < |members| && members[i] == Member(id, r.value, members[i].email)
  {
    if members == [] then None
    else
      var last := members[|members| - 1];
      var init := members[..|members| - 1];
      if last.user == id then Some(last.name)
      else
        var r := NameOf(init, id);
        assert forall i :: 0 <= i < |init| ==> init[i] == members[i];
        assert IsMember(members, id) ==> IsMember(init, id) by {
          if IsMember(members, id) {
            var i :| 0 <= i < |members| && members[i].user == id;
            assert i < |init|;
          }
        }
        r
  }

  /** With no duplicate members, the name found for a member is that member's. */
  lemma NameOfMember(members: seq<Member>, i: nat)
    requires NoDuplicateMembers(members) && i < |members|
    ensures NameOf(members, members[i].user) == Some(members[i].name)
  {
    var r := NameOf(members, members[i].user);
    var k :| 0 <= k < |members| && members[k] == Member(members[i].user, r.value, members[k].email);
    assert k == i;
  }

  /** Builds the name table by the handler's loop over the member list. */
  method BuildUserMap(members: seq<Member>) returns (names: map<Id, string>)
    ensures forall id :: id in names <==> IsMember(members, id)
    ensures forall id :: id in names ==> Some(names[id]) == NameOf(members, id)
  {
    names := map[];
    var i := 0;
    while i < |members|
      invariant 0 <= i <= |members|
      invariant forall id :: id in names <==> IsMember(members[..i], id)
      invariant forall id :: id in names ==> Some(names[id]) == NameOf(members[..i], id)
    {
      names := names[members[i].user := members[i].name];
      i := i + 1;
      assert members[..i][..i - 1] == members[..i - 1];
      assert forall id :: IsMember(members[..i], id) <==> IsMember(members[..i - 1], id) || members[i - 1].user == id by {
        forall id ensures IsMember(members[..i], id) <==> IsMember(members[..i - 1], id) || members[i - 1].user == id {
          if IsMember(members[..i], id) && members[i - 1].user != id {
            var k :| 0 <= k < i && members[..i][k].user == id;
            assert members[..i - 1][k].user == id;
          }
          if IsMember(members[..i - 1], id) {
            var k :| 0 <= k < i - 1 && members[..i - 1][k].user == id;
            assert members[..i][k].user == id;
          }
        }
      }
    }
    assert members[..i] == members;
  }

  /** `userMap[id]`: the name stored for `id`, or None for `undefined`. */
  function Lookup(names: map<Id, string>, id: Id): (r: Option<string>)
    ensures r.Some? <==> id in names
    ensures r.Some? ==> r.value == names[id]
  {
    if id in names then Some(names[id]) else None
  }

  /** The `settlementPlan.map(...)` of getSettlementPlan: same length and
      order as the plan, ids and amounts copied, names looked up. */
  function FormatPlan(plan: seq<Settlement>, names: map<Id, string>): (r: seq<FormattedSettlement>)
    ensures |r| == |plan|
    ensures forall i :: 0 <= i < |plan| ==>
      && r[i].from == Party(plan[i].from, Lookup(names, plan[i].from))
      && r[i].to == Party(plan[i].to, Lookup(names, plan[i].to))
      && r[i].amount == plan[i].amount
  {
    if plan == [] then []
    else
      var s := plan[0];
      [FormattedSettlement(Party(s.from, Lookup(names, s.from)), Party(s.to, Lookup(names, s.to)), s.amount)]
        + FormatPlan(plan[1..], names)
  }

  /** `(amount / totalAmount) * 100` with JavaScript's division: there is no
      guard for a zero total, which yields an infinity or NaN. */
  function Percentage(amount: real, total: real): (p: Number)
    ensures total != 0.0 ==> p == Finite(amount / total * 100.0)
    ensures total == 0.0 ==> (p == PositiveInfinity <==> amount > 0.0)
    ensures total == 0.0 ==> (p == NegativeInfinity <==> amount < 0.0)
    ensures total == 0.0 ==> (p == NaN <==> amount == 0.0)
  {
    if total != 0.0 then Finite(amount / total * 100.0)
    else if amount > 0.0 then PositiveInfinity
    else if amount < 0.0 then NegativeInfinity
    else NaN
  }

  /** `Object.entries(userExpenses).map(...)`: one share per entry, in order. */
  function UserShares(entries: seq<(Id, real)>, names: map<Id, string>, total: real): (r: seq<UserShare>)
    ensures |r| == |entries|
    ensures forall i :: 0 <= i < |entries| ==>
      r[i] == UserShare(entries[i].0, Lookup(names, entries[i].0), entries[i].1, Percentage(entries[i].1, total))
  {
    if entries == [] then []
    else
      var (id, amount) := entries[0];
      [UserShare(id, Lookup(names, id), amount, Percentage(amount, total))] + UserShares(entries[1..], names, total)
  }

  /** `Object.entries(categoryExpenses).map(...)`: one share per entry, in order. */
  function CategoryShares(entries: seq<(string, real)>, total: real): (r: seq<CategoryShare>)
    ensures |r| == |entries|
    ensures forall i :: 0 <= i < |entries| ==>
      r[i] == CategoryShare(entries[i].0, entries[i].1, Percentage(entries[i].1, total))
  {
    if entries == [] then []
    else
      var (category, amount) := entries[0];
      [CategoryShare(category, amount, Percentage(amount, total))] + CategoryShares(entries[1..], total)
  }

  /** The formatted analysis; the total is copied unchanged. */
  function FormatAnalysis(a: Analysis, names: map<Id, string>): (r: FormattedAnalysis)
    ensures r.totalAmount == a.totalAmount
    ensures r.userExpenses == UserShares(a.userExpenses, names, a.totalAmount)
    ensures r.categoryExpenses == CategoryShares(a.categoryExpenses, a.totalAmount)
  {
    FormattedAnalysis(
      UserShares(a.userExpenses, names, a.totalAmount),
      CategoryShares(a.categoryExpenses, a.totalAmount),
      a.totalAmount)
  }

  function SumAmounts<K>(entries: seq<(K, real)>): real {
    if entries == [] then 0.0 else entries[0].1 + SumAmounts(entries[1..])
  }

  /** The sum of the finite percentages of a list of category shares. */
  function SumPercentages(shares: seq<CategoryShare>): real {
    if shares == [] then 0.0
    else (if shares[0].percentage.Finite? then shares[0].percentage.value else 0.0)
         + SumPercentages(shares[1..])
  }

  /** With a non-zero total, every category percentage is finite and they add
      up to the entries' sum as a percentage of the total. */
  lemma {:induction false} CategoryPercentagesSum(entries: seq<(string, real)>, total: real)
    requires total != 0.0
    ensures forall s :: s in CategoryShares(entries, total) ==> s.percentage.Finite?
    ensures SumPercentages(CategoryShares(entries, total)) == SumAmounts(entries) / total * 100.0
  {
    if entries != [] {
      CategoryPercentagesSum(entries[1..], total);
      var rest := CategoryShares(entries[1..], total);
      assert CategoryShares(entries, total)[1..] == rest;
      var a := entries[0].1;
      var s := SumAmounts(entries[1..]);
      assert a / total * 100.0 + s / total * 100.0 == (a + s) / total * 100.0;
    }
  }

  /** When the analysis total is the sum of its category amounts and is not
      zero, the category percentages add up to exactly 100. */
  lemma CategoryPercentagesTotal100(a: Analysis)
    requires a.totalAmount != 0.0 && a.totalAmount == SumAmounts(a.categoryExpenses)
    ensures SumPercentages(CategoryShares(a.categoryExpenses, a.totalAmount)) == 100.0
  {
    CategoryPercentagesSum(a.categoryExpenses, a.totalAmount);
  }

  /** With a zero total no entry has a finite percentage: the handler does not
      guard the division and emits Infinity or NaN. */
  lemma ZeroTotalHasNoFinitePercentage(a: Analysis, names: map<Id, string>)
    requires a.totalAmount == 0.0
    ensures forall s :: s in FormatAnalysis(a, names).userExpenses ==> !s.percentage.Finite?
    ensures forall s :: s in FormatAnalysis(a, names).categoryExpenses ==> !s.percentage.Finite?
  {
  }
}
