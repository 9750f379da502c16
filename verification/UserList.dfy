/** The user list page: one batch query for all role bindings, grouped in memory, in place of one query per user. */
module UserList {
  import opened Options
  import opened Accounts

  datatype Pair = Pair(userId: Id, roleId: Id)
  datatype Item = Item(id: Id, roleIds: seq<Id>)

  /** ListUserRolesByUserIDs, in scan order. */
  function PairsOf(bs: seq<Binding>, userIds: seq<Id>): seq<Pair> {
    if bs == [] then [] else
      var before, b := PairsOf(bs[..|bs| - 1], userIds), bs[|bs| - 1];
      if b.userType == "SysUser" && b.userId in userIds then before + [Pair(b.userId, b.roleId)] else before
  }

  /** The roles of one user among the pairs. */
  function Group(pairs: seq<Pair>, u: Id): seq<Id> {
    if pairs == [] then [] else
      var before, p := Group(pairs[..|pairs| - 1], u), pairs[|pairs| - 1];
      if p.userId == u then before + [p.roleId] else before
  }

  /** handleSKUserList after the page of users is read. Without a batch result nobody shows any role. */
  method AttachRoles(userIds: seq<Id>, batch: Option<seq<Pair>>) returns (items: seq<Item>)
    ensures |items| == |userIds|
    ensures forall i | 0 <= i < |items| ::
              items[i] == Item(userIds[i], if batch.Some? then Group(batch.value, userIds[i]) else [])
  {
    items := seq(|userIds|, i requires 0 <= i < |userIds| => Item(userIds[i], []));
    if |userIds| == 0 || batch.None? {
      return;
    }
    var bindings := batch.value;
    var byUser: map<Id, seq<Id>> := map[];
    for i := 0 to |bindings|
      invariant forall u :: Group(bindings[..i], u) == if u in byUser then byUser[u] else []
    {
      assert bindings[..i + 1][..i] == bindings[..i];
      var b := bindings[i];
      var roles := if b.userId in byUser then byUser[b.userId] else [];
      byUser := byUser[b.userId := roles + [b.roleId]];
    }
    assert bindings[..|bindings|] == bindings;
    for i := 0 to |items|
      invariant |items| == |userIds|
      invariant forall k | 0 <= k < |items| ::
                  items[k] == Item(userIds[k], if k < i then Group(bindings, userIds[k]) else [])
    {
      var roles := if items[i].id in byUser then byUser[items[i].id] else [];
      items := items[i := Item(items[i].id, roles)];
    }
  }

  /** How often a role appears in a group is how often the pair appears in the batch. */
  lemma {:induction false} GroupCounts(pairs: seq<Pair>, u: Id, r: Id)
    ensures multiset(Group(pairs, u))[r] == multiset(pairs)[Pair(u, r)]
  {
    if pairs != [] {
      var front, p := pairs[..|pairs| - 1], pairs[|pairs| - 1];
      GroupCounts(front, u, r);
      assert pairs == front + [p];
      assert multiset(pairs) == multiset(front) + multiset([p]);
      assert multiset(Group(front, u) + [p.roleId]) == multiset(Group(front, u)) + multiset([p.roleId]);
    }
  }

  /** Read in scan order, the group of a listed user is the list its own query returns. */
  lemma {:induction false} BatchInOrder(bs: seq<Binding>, userIds: seq<Id>, u: Id)
    requires u in userIds
    ensures Group(PairsOf(bs, userIds), u) == RolesOf(bs, u)
  {
    if bs != [] {
      var front, b := bs[..|bs| - 1], bs[|bs| - 1];
      BatchInOrder(front, userIds, u);
      var before := PairsOf(front, userIds);
      assert (before + [Pair(b.userId, b.roleId)])[..|before|] == before;
    }
  }

  /** Theorem: in whatever order the database returns the batch, every listed user gets the roles that a query for
      that user alone returns, with the same multiplicity. */
  lemma BatchMatchesPerUser(bs: seq<Binding>, userIds: seq<Id>, batch: seq<Pair>, u: Id)
    requires u in userIds && multiset(batch) == multiset(PairsOf(bs, userIds))
    ensures multiset(Group(batch, u)) == multiset(RolesOf(bs, u))
  {
    BatchInOrder(bs, userIds, u);
    forall r ensures multiset(Group(batch, u))[r] == multiset(RolesOf(bs, u))[r] {
      GroupCounts(batch, u, r);
      GroupCounts(PairsOf(bs, userIds), u, r);
    }
  }
}
