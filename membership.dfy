/**
  Member lists and id lists of the group store: the membership test that
  guards almost every handler (`group.members.some(...)`), and the two
  `filter` calls that remove a member from a group and an id from a list.
 */
module Membership {
  import opened Records
  import opened Seqs

  /** `members.some(member => member.user == u)`. */
  predicate IsMember(members: seq<Member>, u: Id) {
    exists i :: 0 <= i < |members| && members[i].user == u
  }

  /** No two entries of the member list belong to the same user. */
  predicate NoDuplicateMembers(members: seq<Member>) {
    forall i, j :: 0 <= i < j < |members| ==> members[i].user != members[j].user
  }

  /** `members.filter(member => member.user != u)`: the member list without
      any entry of user `u`, the others in their original order. */
  function WithoutUser(members: seq<Member>, u: Id): (r: seq<Member>)
    ensures !IsMember(r, u)
    ensures forall v :: v != u ==> (IsMember(r, v) <==> IsMember(members, v))
    ensures !IsMember(members, u) ==> r == members
  {
    var r := Filter(members, (m: Member) => m.user != u);
    assert forall v :: v != u && IsMember(members, v) ==> IsMember(r, v) by {
      forall v | v != u && IsMember(members, v) ensures IsMember(r, v) {
        var i :| 0 <= i < |members| && members[i].user == v;
        assert members[i] in r;
      }
    }
    assert forall v :: IsMember(r, v) ==> IsMember(members, v) && v != u by {
      forall v | IsMember(r, v) ensures IsMember(members, v) && v != u {
        var i :| 0 <= i < |r| && r[i].user == v;
        assert r[i] in members;
      }
    }
    if !IsMember(members, u) then
      FilterKeepsAll(members, (m: Member) => m.user != u);
      r
    else r
  }

  /** `ids.filter(id => id != x)`: the list without any occurrence of `x`,
      the other ids in their original order. */
  function WithoutId(ids: seq<Id>, x: Id): (r: seq<Id>)
    ensures x !in r
    ensures forall y :: y != x ==> (y in r <==> y in ids)
    ensures x !in ids ==> r == ids
  {
    if x !in ids then
      FilterKeepsAll(ids, (y: Id) => y != x);
      Filter(ids, (y: Id) => y != x)
    else Filter(ids, (y: Id) => y != x)
  }

  /** Removing an id twice is removing it once. */
  lemma WithoutIdIdempotent(ids: seq<Id>, x: Id)
    ensures WithoutId(WithoutId(ids, x), x) == WithoutId(ids, x)
  {
  }

  /** Removing an id from a concatenation removes it from each part, and a
      single id survives exactly when it differs: the ids that remain keep
      their relative order. */
  lemma WithoutIdKeepsOrder(a: seq<Id>, b: seq<Id>, x: Id)
    ensures WithoutId(a + b, x) == WithoutId(a, x) + WithoutId(b, x)
    ensures forall y :: WithoutId([y], x) == if y == x then [] else [y]
  {
    FilterAppend(a, b, (y: Id) => y != x);
  }

  /** Removing a user from a concatenation of member lists removes the user
      from each part, and a single entry survives exactly when it belongs to
      someone else: the remaining members keep their relative order. */
  lemma WithoutUserKeepsOrder(a: seq<Member>, b: seq<Member>, u: Id)
    ensures WithoutUser(a + b, u) == WithoutUser(a, u) + WithoutUser(b, u)
    ensures forall m :: WithoutUser([m], u) == if m.user == u then [] else [m]
  {
    FilterAppend(a, b, (m: Member) => m.user != u);
  }

  /** Removing a user keeps a duplicate-free member list duplicate-free. */
  lemma {:induction false} WithoutUserKeepsNoDuplicates(members: seq<Member>, u: Id)
    requires NoDuplicateMembers(members)
    ensures NoDuplicateMembers(WithoutUser(members, u))
  {
    FilterKeepsNoDuplicates(members, (m: Member) => m.user != u);
  }

  lemma {:induction false} FilterKeepsNoDuplicates(members: seq<Member>, keep: Member -> bool)
    requires NoDuplicateMembers(members)
    ensures NoDuplicateMembers(Filter(members, keep))
  {
    if members != [] {
      var rest := members[1..];
      assert NoDuplicateMembers(rest) by {
        forall i, j | 0 <= i < j < |rest| ensures rest[i].user != rest[j].user {
          assert rest[i] == members[i + 1] && rest[j] == members[j + 1];
        }
      }
      FilterKeepsNoDuplicates(rest, keep);
      if keep(members[0]) {
        var r := [members[0]] + Filter(rest, keep);
        assert Filter(members, keep) == r;
        forall j | 1 <= j < |r| ensures r[0].user != r[j].user {
          assert r[j] in rest;
          var k :| 0 <= k < |rest| && rest[k] == r[j];
          assert rest[k] == members[k + 1];
        }
      }
    }
  }

  /** Appending the entry of a user who is not yet a member keeps the list
      free of duplicates. */
  lemma AppendNewMemberKeepsNoDuplicates(members: seq<Member>, m: Member)
    requires NoDuplicateMembers(members) && !IsMember(members, m.user)
    ensures NoDuplicateMembers(members + [m])
  {
    var r := members + [m];
    forall i, j | 0 <= i < j < |r| ensures r[i].user != r[j].user {
      if j == |members| {
        assert r[i] == members[i];
      } else {
        assert r[i] == members[i] && r[j] == members[j];
      }
    }
  }
}
