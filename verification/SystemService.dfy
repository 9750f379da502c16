/** User administration as the code runs it: each call works statement by statement on a transaction that is
    rolled back unless every statement and the commit succeed. `dbFails` says which statement fails. Other
    calls may commit their own transactions until this one begins; the trace records what was committed.
 */
module SystemServices {
  import opened Options
  import opened Accounts

  datatype Result = Ok(id: Id) | NotFound | Err(error: string)

  /** What an administrator asks for; `roleIds` is None when nothing is said about the roles. */
  datatype UserChange = UserChange(patch: UserPatch, password: Option<string>, roleIds: Option<seq<Id>>,
                                 resetRoles: bool)

  predicate GivesPassword(change: UserChange) {
    change.password.Some? && change.password.value != ""
  }

  /** The transaction does what was asked: the secret is touched only for a password that is not empty. */
  predicate Requested(change: UserChange, hash: Option<string>, update: UpdateInput) {
    && update.patch == change.patch && update.roleIds == change.roleIds && update.resetRoles == change.resetRoles
    && (change.password == None || change.password == Some("") ==> update.secret == None)
    && (change.password.Some? && change.password.value != "" ==> hash.Some? && update.secret == hash)
  }

  class SystemService {
    var db: Db
    ghost var trace: seq<Tx>

    ghost predicate Valid()
      reads this
    {
      db == Run(SEED, trace)
    }

    constructor ()
      ensures Valid() && db == SEED && trace == []
    {
      db, trace := SEED, [];
    }

    /** Interference: other calls commit any transactions of their own. */
    method OtherCalls()
      requires Valid()
      modifies this
      ensures Valid() && old(trace) <= trace
    {
    }

    /** COMMIT: everything the transaction did becomes visible at once. */
    method CommitTx(tx: Db, ghost e: Tx)
      requires Valid() && Admissible(db, e) && tx == Commit(db, e)
      modifies this
      ensures Valid() && db == tx && trace == old(trace) + [e]
    {
      assert (trace + [e])[..|trace|] == trace;
      db, trace := tx, trace + [e];
    }

    /** AddUserRole for each role in turn; the primary key refuses a row id that is already there. */
    method AddUserRoles(bindings: seq<Binding>, uid: Id, roleIds: seq<Id>, rowIds: seq<Id>, first: nat,
        dbFails: nat -> bool)
      returns (bindings': seq<Binding>, ok: bool)
      requires |rowIds| >= |roleIds|
      ensures ok ==> bindings' == bindings + NewBindings(uid, roleIds, rowIds)
      ensures (forall i: nat :: !dbFails(i)) && FreshRows(bindings, rowIds) ==> ok
    {
      bindings' := bindings;
      for i := 0 to |roleIds|
        invariant bindings' == bindings + NewBindings(uid, roleIds[..i], rowIds)
      {
        if dbFails(first + i) || exists b :: b in bindings' && b.id == rowIds[i] {
          if FreshRows(bindings, rowIds) && !dbFails(first + i) {
            FreshRowIsNew(bindings, uid, roleIds[..i], rowIds, i);
          }
          return bindings', false;
        }
        bindings' := bindings' + [Binding(rowIds[i], "SysUser", uid, roleIds[i])];
        assert NewBindings(uid, roleIds[..i + 1], rowIds) ==
               NewBindings(uid, roleIds[..i], rowIds) + [Binding(rowIds[i], "SysUser", uid, roleIds[i])];
      }
      assert roleIds[..|roleIds|] == roleIds;
      ok := true;
    }

    /** CreateUser: user, account and role bindings, all or nothing. `hash` is the hashed password, if
        hashing worked. */
    method CreateUser(input: CreateInput, password: string, hash: Option<string>, uid: Id, aid: Id, rowIds: seq<Id>,
                      dbFails: nat -> bool) returns (r: Result, ghost before: seq<Tx>)
      requires Valid() && |rowIds| >= |input.roleIds|
      modifies this
      ensures Valid() && old(trace) <= before
      ensures r.Ok? ==> && r.id == uid && hash.Some? && input.username != "" && password != ""
                        && Admissible(Run(SEED, before), Create(uid, aid, input, hash.value, rowIds))
                        && trace == before + [Create(uid, aid, input, hash.value, rowIds)]
                        && db == Commit(Run(SEED, before), Create(uid, aid, input, hash.value, rowIds))
      ensures !r.Ok? ==> trace == before
      ensures (&& input.username != "" && password != "" && hash.Some? && (forall i: nat :: !dbFails(i))
               && Admissible(Run(SEED, before), Create(uid, aid, input, hash.value, rowIds))
               && FreshRows(Run(SEED, before).bindings, rowIds)) ==> r.Ok?
    {
      hide Run;
      OtherCalls();
      before := trace;
      if input.username == "" || password == "" {
        return Err("username and password are required"), before;
      }
      if hash.None? {
        return Err("hash password"), before;
      }
      if dbFails(0) {
        return Err("begin tx"), before;
      }
      var tx := db;
      if dbFails(1) || uid in tx.users {
        return Err("create user"), before;
      }
      tx := tx.(users := tx.users[uid := NewUser(input)]);
      if dbFails(2) || aid in tx.accounts || AccountTaken(tx, uid, "PWD") {
        return Err("create account"), before;
      }
      tx := tx.(accounts := tx.accounts[aid := NewAccount(uid, input, hash.value)]);
      var bindings, ok := AddUserRoles(tx.bindings, uid, input.roleIds, rowIds, 3, dbFails);
      if !ok {
        return Err("add user role"), before;
      }
      tx := tx.(bindings := bindings);
      if dbFails(3 + |input.roleIds|) {
        return Err("commit"), before;
      }
      CommitTx(tx, Create(uid, aid, input, hash.value, rowIds));
      return Ok(uid), before;
    }

    /** UpdateUser: the row, the password if one is given, and the roles if they are given or reset. */
    method UpdateUser(id: Id, change: UserChange, hash: Option<string>, rowIds: seq<Id>, dbFails: nat -> bool)
      returns (r: Result, ghost before: seq<Tx>, ghost update: UpdateInput)
      requires Valid() && (change.roleIds.Some? ==> |rowIds| >= |change.roleIds.value|)
      modifies this
      ensures Valid() && old(trace) <= before
      ensures r.NotFound? <==> !dbFails(0) && !LiveUser(old(db), id)
      ensures r.Ok? ==> && Requested(change, hash, update)
                        && LiveUser(old(db), id) && Admissible(Run(SEED, before), Update(id, update, rowIds))
                        && trace == before + [Update(id, update, rowIds)]
                        && db == Commit(Run(SEED, before), Update(id, update, rowIds))
      ensures !r.Ok? ==> trace == before
      ensures (&& LiveUser(old(db), id) && (forall i: nat :: !dbFails(i)) && !(GivesPassword(change) && hash.None?)
               && FreshRows(WithoutUser(Run(SEED, before).bindings, id), rowIds)) ==> r.Ok?
    {
      hide Run;
      before := trace;
      update := UpdateInput(change.patch, if GivesPassword(change) then hash else None,
                            change.roleIds, change.resetRoles);
      if dbFails(0) {
        return Err("load user"), before, update;
      }
      if id !in db.users || db.users[id].deleted {
        return NotFound, before, update;
      }
      OtherCalls();
      before := trace;
      assert old(trace) == before[..|old(trace)|];
      UsersStay(SEED, before, |old(trace)|, id);
      if dbFails(1) {
        return Err("begin tx"), before, update;
      }
      var tx := db;
      if dbFails(2) {
        return Err("update user"), before, update;
      }
      tx := UpdateUserRow(tx, id, change.patch);
      if change.password.Some? && change.password.value != "" {
        if hash.None? {
          return Err("hash"), before, update;
        }
        if dbFails(3) {
          return Err("reset password"), before, update;
        }
        tx := UpdateAccountSecret(tx, id, hash.value);
      }
      if change.resetRoles || change.roleIds.Some? {
        if dbFails(4) {
          return Err("clear roles"), before, update;
        }
        var roleIds := if change.roleIds.Some? then change.roleIds.value else [];
        var bindings, ok := AddUserRoles(WithoutUser(tx.bindings, id), id, roleIds, rowIds, 5, dbFails);
        if !ok {
          return Err("add role"), before, update;
        }
        tx := tx.(bindings := bindings);
      }
      if dbFails(5 + |rowIds|) {
        return Err("commit"), before, update;
      }
      CommitTx(tx, Update(id, update, rowIds));
      return Ok(id), before, update;
    }

    /** DeleteUser: the user and its accounts; the bindings stay. */
    method DeleteUser(id: Id, dbFails: nat -> bool) returns (r: Result, ghost before: seq<Tx>)
      requires Valid()
      modifies this
      ensures Valid() && old(trace) <= before
      ensures r.NotFound? <==> !dbFails(0) && !LiveUser(old(db), id)
      ensures r.Ok? <==> LiveUser(old(db), id) && forall i: nat | i <= 4 :: !dbFails(i)
      ensures trace == if r.Ok? then before + [Delete(id)] else before
      ensures r.Ok? ==> db == Commit(Run(SEED, before), Delete(id))
    {
      hide Run;
      before := trace;
      if dbFails(0) {
        return Err("load user"), before;
      }
      if id !in db.users || db.users[id].deleted {
        return NotFound, before;
      }
      OtherCalls();
      before := trace;
      if dbFails(1) {
        return Err("begin tx"), before;
      }
      var tx := db;
      if dbFails(2) {
        return Err("delete user"), before;
      }
      tx := SoftDeleteUser(tx, id);
      if dbFails(3) {
        return Err("delete account"), before;
      }
      tx := SoftDeleteAccountForUser(tx, id);
      if dbFails(4) {
        return Err("commit"), before;
      }
      CommitTx(tx, Delete(id));
      return Ok(id), before;
    }
  }

  /** Generated row ids: new, and all different. */
  ghost predicate FreshRows(bindings: seq<Binding>, rowIds: seq<Id>) {
    && (forall b, i | b in bindings && 0 <= i < |rowIds| :: b.id != rowIds[i])
    && (forall i, j | 0 <= i < j < |rowIds| :: rowIds[i] != rowIds[j])
  }

  lemma FreshRowIsNew(bindings: seq<Binding>, uid: Id, roleIds: seq<Id>, rowIds: seq<Id>, i: nat)
    requires |roleIds| == i < |rowIds| && FreshRows(bindings, rowIds)
    ensures forall b | b in bindings + NewBindings(uid, roleIds, rowIds) :: b.id != rowIds[i]
  {
  }
}
