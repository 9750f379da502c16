/** Users, their login accounts and their role bindings: the statements, the three transactions made of
    them, and what every run of those transactions keeps.
 */
module Accounts {
  import opened Options

  type Id = string

  datatype Profile = Profile(deptId: Option<string>, gender: Option<string>, phone: Option<string>,
                             email: Option<string>, avatar: Option<string>, profile: Option<string>)
  datatype User = User(name: string, profile: Profile, status: int, deleted: bool)
  datatype Account = Account(userType: string, userId: Id, authType: string, authAccount: string,
                             authSecret: Option<string>, status: int, deleted: bool)
  datatype Binding = Binding(id: Id, userType: string, userId: Id, roleId: Id)

  /** The binding table is a sequence: its order is the order in which a scan meets the rows. */
  datatype Db = Db(users: map<Id, User>, accounts: map<Id, Account>, bindings: seq<Binding>)

  // ---------------------------------------------------------------- statements

  /** The optional fields of an update; absent ones keep their value. */
  datatype UserPatch = UserPatch(name: Option<string>, profile: Profile, status: Option<int>)

  function PatchedUser(u: User, p: UserPatch): User {
    User(if p.name.Some? then p.name.value else u.name,
         Profile(Coalesce(p.profile.deptId, u.profile.deptId), Coalesce(p.profile.gender, u.profile.gender),
                 Coalesce(p.profile.phone, u.profile.phone), Coalesce(p.profile.email, u.profile.email),
                 Coalesce(p.profile.avatar, u.profile.avatar), Coalesce(p.profile.profile, u.profile.profile)),
         if p.status.Some? then p.status.value else u.status, u.deleted)
  }

  predicate LiveUser(db: Db, id: Id) {
    id in db.users && !db.users[id].deleted
  }

  function UpdateUserRow(db: Db, id: Id, p: UserPatch): Db {
    if LiveUser(db, id) then db.(users := db.users[id := PatchedUser(db.users[id], p)]) else db
  }

  function SoftDeleteUser(db: Db, id: Id): Db {
    if LiveUser(db, id) then db.(users := db.users[id := db.users[id].(deleted := true)]) else db
  }

  predicate AccountHit(a: Account, userId: Id) {
    a.userId == userId && a.userType == "SysUser" && !a.deleted
  }

  function UpdateAccountSecret(db: Db, userId: Id, secret: string): Db {
    db.(accounts := map a | a in db.accounts ::
      if AccountHit(db.accounts[a], userId) && db.accounts[a].authType == "PWD"
      then db.accounts[a].(authSecret := Some(secret)) else db.accounts[a])
  }

  function SoftDeleteAccountForUser(db: Db, userId: Id): Db {
    db.(accounts := map a | a in db.accounts ::
      if AccountHit(db.accounts[a], userId) then db.accounts[a].(deleted := true) else db.accounts[a])
  }

  /** The partial unique index on (user_id, auth_type) of undeleted accounts. */
  predicate AccountTaken(db: Db, userId: Id, authType: string) {
    exists a :: a in db.accounts && !db.accounts[a].deleted
                && db.accounts[a].userId == userId && db.accounts[a].authType == authType
  }

  predicate BoundTo(b: Binding, userId: Id) {
    b.userId == userId && b.userType == "SysUser"
  }

  /** ReplaceUserRoles: the rows that survive the deletion. */
  function WithoutUser(bs: seq<Binding>, userId: Id): seq<Binding> {
    if bs == [] then [] else
      var before, b := WithoutUser(bs[..|bs| - 1], userId), bs[|bs| - 1];
      if BoundTo(b, userId) then before else before + [b]
  }

  function NewBindings(userId: Id, roleIds: seq<Id>, rowIds: seq<Id>): seq<Binding>
    requires |rowIds| >= |roleIds|
  {
    seq(|roleIds|, i requires 0 <= i < |roleIds| => Binding(rowIds[i], "SysUser", userId, roleIds[i]))
  }

  /** ListUserRoleIDs */
  function RolesOf(bs: seq<Binding>, userId: Id): seq<Id> {
    if bs == [] then [] else
      var before, b := RolesOf(bs[..|bs| - 1], userId), bs[|bs| - 1];
      if BoundTo(b, userId) then before + [b.roleId] else before
  }

  // ---------------------------------------------------------------- transactions

  datatype CreateInput = CreateInput(username: string, name: string, profile: Profile, status: Option<int>,
      roleIds: seq<Id>)
  /** `secret` is the hash of the new password, if a non-empty one was given. */
  datatype UpdateInput = UpdateInput(patch: UserPatch, secret: Option<string>, roleIds: Option<seq<Id>>,
      resetRoles: bool)

  /** A committed transaction. An update or a deletion may commit after the user it was checked for was deleted. */
  datatype Tx =
    | Create(uid: Id, aid: Id, input: CreateInput, hash: string, rowIds: seq<Id>)
    | Update(id: Id, update: UpdateInput, rowIds: seq<Id>)
    | Delete(id: Id)

  function NewUser(input: CreateInput): User {
    User(if input.name == "" then input.username else input.name, input.profile,
         if input.status.Some? then input.status.value else 1, false)
  }

  function NewAccount(uid: Id, input: CreateInput, hash: string): Account {
    Account("SysUser", uid, "PWD", input.username, Some(hash), 1, false)
  }

  /** The constraints that let the transaction commit. An update is of a user that was there when it was checked, and
      no row of a user ever goes away. */
  predicate Admissible(db: Db, tx: Tx) {
    match tx
    case Create(uid, aid, input, hash, rowIds) =>
      uid !in db.users && aid !in db.accounts && !AccountTaken(db, uid, "PWD") && |rowIds| >= |input.roleIds|
    case Update(id, update, rowIds) =>
      id in db.users && (update.roleIds.Some? ==> |rowIds| >= |update.roleIds.value|)
    case Delete(_) => true
  }

  function UpdatedBindings(bs: seq<Binding>, id: Id, update: UpdateInput, rowIds: seq<Id>): seq<Binding>
    requires update.roleIds.Some? ==> |rowIds| >= |update.roleIds.value|
  {
    if update.roleIds.Some? then WithoutUser(bs, id) + NewBindings(id, update.roleIds.value, rowIds)
    else if update.resetRoles then WithoutUser(bs, id)
    else bs
  }

  function Commit(db: Db, tx: Tx): Db
    requires Admissible(db, tx)
  {
    match tx
    case Create(uid, aid, input, hash, rowIds) =>
      Db(db.users[uid := NewUser(input)], db.accounts[aid := NewAccount(uid, input, hash)],
         db.bindings + NewBindings(uid, input.roleIds, rowIds))
    case Update(id, update, rowIds) =>
      var db1 := UpdateUserRow(db, id, update.patch);
      var db2 := if update.secret.Some? then UpdateAccountSecret(db1, id, update.secret.value) else db1;
      db2.(bindings := UpdatedBindings(db2.bindings, id, update, rowIds))
    case Delete(id) => SoftDeleteAccountForUser(SoftDeleteUser(db, id), id)
  }

  function Apply(db: Db, tx: Tx): Db {
    if Admissible(db, tx) then Commit(db, tx) else db
  }

  function Run(db0: Db, txs: seq<Tx>): Db {
    if txs == [] then db0 else Apply(Run(db0, txs[..|txs| - 1]), txs[|txs| - 1])
  }

  // ---------------------------------------------------------------- users and accounts

  /** `a` is a live password account of the user. */
  predicate LiveAccountOf(db: Db, a: Id, userId: Id) {
    a in db.accounts && AccountHit(db.accounts[a], userId) && db.accounts[a].authType == "PWD"
  }

  /** Live users and live accounts match one to one. */
  ghost predicate Bijection(db: Db) {
    && (forall a | a in db.accounts && !db.accounts[a].deleted ::
          LiveAccountOf(db, a, db.accounts[a].userId) && LiveUser(db, db.accounts[a].userId))
    && (forall u | LiveUser(db, u) :: exists a :: LiveAccountOf(db, a, u))
    && (forall a, b, u | LiveAccountOf(db, a, u) && LiveAccountOf(db, b, u) :: a == b)
  }

  /** What a new installation is seeded with. */
  const ADMIN_ID := "1457995481966747649"
  const SEED := Db(map[ADMIN_ID := User("Admin", Profile(None, None, None, None, None, None), 1, false)],
                   map["1" := Account("SysUser", ADMIN_ID, "PWD", "admin", Some("bcrypt"), 1, false)],
                   [Binding("1488542015867121666", "SysUser", ADMIN_ID, "1457995481928998914")])

  lemma SeedBijection()
    ensures Bijection(SEED)
  {
    assert LiveAccountOf(SEED, "1", ADMIN_ID);
  }

  lemma CreateKeepsBijection(db: Db, tx: Tx)
    requires Bijection(db) && tx.Create? && Admissible(db, tx)
    ensures Bijection(Commit(db, tx))
  {
    var db' := Commit(db, tx);
    forall u | LiveUser(db', u) ensures exists a :: LiveAccountOf(db', a, u) {
      if u == tx.uid {
        assert LiveAccountOf(db', tx.aid, u);
      } else {
        assert LiveUser(db, u);
        var a :| LiveAccountOf(db, a, u);
        assert LiveAccountOf(db', a, u);
      }
    }
    forall a, u | LiveAccountOf(db', a, u) && a != tx.aid ensures LiveAccountOf(db, a, u) && u != tx.uid {
    }
  }

  /** Updates and deletions touch accounts only in place. */
  lemma UpdateKeepsBijection(db: Db, tx: Tx)
    requires Bijection(db) && tx.Update? && Admissible(db, tx)
    ensures Bijection(Commit(db, tx))
  {
    var db' := Commit(db, tx);
    UpdateInPlace(db, tx);
    hide Commit, AccountHit;
    forall u | LiveUser(db', u) ensures exists a :: LiveAccountOf(db', a, u) {
      var a :| LiveAccountOf(db, a, u);
      assert LiveAccountOf(db', a, u);
    }
  }

  lemma UpdateInPlace(db: Db, tx: Tx)
    requires tx.Update? && Admissible(db, tx)
    ensures var db' := Commit(db, tx);
            && (forall u :: LiveUser(db', u) <==> LiveUser(db, u))
            && (forall a, u :: LiveAccountOf(db', a, u) <==> LiveAccountOf(db, a, u))
            && (forall a | a in db'.accounts ::
                  a in db.accounts && db'.accounts[a].deleted == db.accounts[a].deleted
                  && db'.accounts[a].userId == db.accounts[a].userId)
  {
  }

  lemma DeleteKeepsBijection(db: Db, id: Id)
    requires Bijection(db)
    ensures Bijection(Commit(db, Delete(id)))
  {
    var db' := Commit(db, Delete(id));
    assert forall a, u :: LiveAccountOf(db', a, u) <==> LiveAccountOf(db, a, u) && u != id;
    assert forall u :: LiveUser(db', u) <==> LiveUser(db, u) && u != id;
    forall u | LiveUser(db', u) ensures exists a :: LiveAccountOf(db', a, u) {
      var a :| LiveAccountOf(db, a, u);
      assert LiveAccountOf(db', a, u);
    }
  }

  /** Theorem: in every state reachable from the seeded one, live users and live accounts match one to one. */
  lemma {:induction false} UsersMatchAccounts(txs: seq<Tx>)
    ensures Bijection(Run(SEED, txs))
  {
    hide Bijection, Commit;
    if txs == [] {
      SeedBijection();
    } else {
      var db, tx := Run(SEED, txs[..|txs| - 1]), txs[|txs| - 1];
      UsersMatchAccounts(txs[..|txs| - 1]);
      if Admissible(db, tx) {
        match tx
        case Create(_, _, _, _, _) => CreateKeepsBijection(db, tx);
        case Update(_, _, _) => UpdateKeepsBijection(db, tx);
        case Delete(id) => DeleteKeepsBijection(db, id);
      }
    }
  }

  // ---------------------------------------------------------------- logging in

  /** The accounts GetAccountByLogin may return for a name; names need not be unique. */
  predicate MayReturn(db: Db, pick: Id, account: string) {
    && pick in db.accounts && db.accounts[pick].authAccount == account && db.accounts[pick].authType == "PWD"
    && !db.accounts[pick].deleted && db.accounts[pick].status == 1
  }

  /** Login when the database happens to return account `pick` for the name; the id of the user let in. */
  function Login(db: Db, pick: Id, account: string, password: string, verify: (string, string) -> bool): Option<Id> {
    if !MayReturn(db, pick, account) then None
    else
      var a := db.accounts[pick];
      if a.authSecret.Some? && verify(a.authSecret.value, password) && LiveUser(db, a.userId)
      then Some(a.userId) else None
  }

  /** Theorem: only a live user gets in, through an undeleted password account in force that is theirs and
      has the name. */
  lemma OnlyOwnersGetIn(db: Db, pick: Id, account: string, password: string, verify: (string, string) -> bool, u: Id)
    requires Login(db, pick, account, password, verify) == Some(u)
    ensures pick in db.accounts && u in db.users && !db.users[u].deleted
    ensures var a := db.accounts[pick];
            && a.userId == u && a.authAccount == account && a.authType == "PWD" && !a.deleted && a.status == 1
            && a.authSecret.Some? && verify(a.authSecret.value, password)
  {
  }

  /** Once deleted, a user stays deleted. */
  lemma {:induction false} DeletedForever(db0: Db, txs: seq<Tx>, id: Id)
    requires id in db0.users && db0.users[id].deleted
    ensures id in Run(db0, txs).users && Run(db0, txs).users[id].deleted
  {
    if txs != [] {
      DeletedForever(db0, txs[..|txs| - 1], id);
    }
  }

  /** Theorem: after the deletion of a user commits, no account, name or password lets that user in, in any
      continuation. */
  lemma DeletedNeverLogsIn(db0: Db, id: Id, txs: seq<Tx>, pick: Id, account: string, password: string,
                           verify: (string, string) -> bool)
    requires id in db0.users
    ensures Login(Run(Apply(db0, Delete(id)), txs), pick, account, password, verify) != Some(id)
  {
    DeletedForever(Apply(db0, Delete(id)), txs, id);
  }

  /** Theorem: after a committed password reset, the user's account lets the user in exactly with a password
      that matches the new secret. */
  lemma ResetPasswordDecides(db: Db, id: Id, update: UpdateInput, rowIds: seq<Id>, pick: Id, password: string,
                             verify: (string, string) -> bool)
    requires Admissible(db, Update(id, update, rowIds)) && update.secret.Some?
    requires LiveUser(db, id) && LiveAccountOf(db, pick, id) && db.accounts[pick].status == 1
    ensures Login(Commit(db, Update(id, update, rowIds)), pick, db.accounts[pick].authAccount, password, verify) ==
            if verify(update.secret.value, password) then Some(id) else None
  {
  }

  /** Theorem: the new account lets a created user in exactly with a password that matches the hash; and with such a
      password the user gets in, whichever account the database returns for the name, exactly if no live
      account had that name before. */
  lemma CreatedLogsIn(db: Db, tx: Tx, password: string, verify: (string, string) -> bool)
    requires Bijection(db) && tx.Create? && Admissible(db, tx)
    ensures var db', name := Commit(db, tx), tx.input.username;
            && MayReturn(db', tx.aid, name)
            && Login(db', tx.aid, name, password, verify) == (if verify(tx.hash, password) then Some(tx.uid) else None)
            && (verify(tx.hash, password) ==>
                  ((forall pick | MayReturn(db', pick, name) ::
                      Login(db', pick, name, password, verify) == Some(tx.uid))
                   <==> !exists a :: MayReturn(db, a, name)))
  {
    var db', name := Commit(db, tx), tx.input.username;
    assert forall a | a != tx.aid :: MayReturn(db', a, name) <==> MayReturn(db, a, name);
    assert !MayReturn(db, tx.aid, name);
    if a :| MayReturn(db, a, name) {
      assert LiveAccountOf(db, a, db.accounts[a].userId) && LiveUser(db, db.accounts[a].userId);
      assert MayReturn(db', a, name) && Login(db', a, name, password, verify) != Some(tx.uid);
    }
  }

  /** Theorem: a committed transaction leaves every row of every other user alone, and gives it no new one. */
  lemma OthersUnchanged(db: Db, tx: Tx, u: Id, a: Id)
    requires Admissible(db, tx) && u != (if tx.Create? then tx.uid else tx.id)
    ensures var db' := Commit(db, tx);
            && (u in db'.users <==> u in db.users) && (u in db.users ==> db'.users[u] == db.users[u])
            && (a in db.accounts && db.accounts[a].userId == u
               ==> a in db'.accounts && db'.accounts[a] == db.accounts[a])
            && (a in db'.accounts && db'.accounts[a].userId == u
               ==> a in db.accounts && db.accounts[a] == db'.accounts[a])
            && RolesOf(db'.bindings, u) == RolesOf(db.bindings, u)
  {
    match tx
    case Create(uid, aid, input, hash, rowIds) =>
      RolesConcat(db.bindings, NewBindings(uid, input.roleIds, rowIds), u);
      RolesNew(uid, input.roleIds, rowIds, u);
    case Update(id, update, rowIds) => RolesReplaced(db, id, update, rowIds, u);
    case Delete(_) =>
  }

  // ---------------------------------------------------------------- role bindings

  lemma {:induction false} RolesConcat(a: seq<Binding>, b: seq<Binding>, u: Id)
    ensures RolesOf(a + b, u) == RolesOf(a, u) + RolesOf(b, u)
  {
    if b == [] {
      assert a + b == a;
    } else {
      assert (a + b)[..|a + b| - 1] == a + b[..|b| - 1];
      RolesConcat(a, b[..|b| - 1], u);
    }
  }

  lemma {:induction false} RolesWithout(bs: seq<Binding>, id: Id, u: Id)
    ensures RolesOf(WithoutUser(bs, id), u) == if u == id then [] else RolesOf(bs, u)
  {
    if bs != [] {
      var front, b := bs[..|bs| - 1], bs[|bs| - 1];
      RolesWithout(front, id, u);
      RolesConcat(WithoutUser(front, id), [b], u);
      assert [b][..0] == [] && RolesOf([b], u) == if BoundTo(b, u) then [b.roleId] else [];
    }
  }

  lemma {:induction false} RolesNew(id: Id, roleIds: seq<Id>, rowIds: seq<Id>, u: Id)
    requires |rowIds| >= |roleIds|
    ensures RolesOf(NewBindings(id, roleIds, rowIds), u) == if u == id then roleIds else []
  {
    if roleIds != [] {
      var front := roleIds[..|roleIds| - 1];
      var bs := NewBindings(id, roleIds, rowIds);
      RolesNew(id, front, rowIds, u);
      assert bs[..|bs| - 1] == NewBindings(id, front, rowIds);
      assert roleIds == front + [roleIds[|roleIds| - 1]];
    }
  }

  /** Theorem: a committed update leaves the user with exactly the given roles (none on a bare reset, the old
      ones when nothing is said), and everybody else with theirs. */
  lemma RolesReplaced(db: Db, id: Id, update: UpdateInput, rowIds: seq<Id>, u: Id)
    requires Admissible(db, Update(id, update, rowIds))
    ensures RolesOf(Commit(db, Update(id, update, rowIds)).bindings, u) ==
            if u != id then RolesOf(db.bindings, u)
            else if update.roleIds.Some? then update.roleIds.value
            else if update.resetRoles then []
            else RolesOf(db.bindings, u)
  {
    hide RolesOf, WithoutUser, NewBindings;
    RolesWithout(db.bindings, id, u);
    if update.roleIds.Some? {
      RolesConcat(WithoutUser(db.bindings, id), NewBindings(id, update.roleIds.value, rowIds), u);
      RolesNew(id, update.roleIds.value, rowIds, u);
    }
  }

  // ---------------------------------------------------------------- what is stored under an id

  /** No transaction removes the row of a user. */
  lemma {:induction false} UsersStay(db0: Db, txs: seq<Tx>, k: nat, id: Id)
    requires k <= |txs| && id in Run(db0, txs[..k]).users
    ensures id in Run(db0, txs).users
  {
    if k == |txs| {
      assert txs[..k] == txs;
    } else {
      assert txs[..|txs| - 1][..k] == txs[..k];
      UsersStay(db0, txs[..|txs| - 1], k, id);
    }
  }

  /** Every binding of a system user is one of a stored user. */
  predicate BindingsBelong(db: Db) {
    forall b | b in db.bindings && b.userType == "SysUser" :: b.userId in db.users
  }

  lemma {:induction false} WithoutUserIsPart(bs: seq<Binding>, id: Id)
    ensures forall b | b in WithoutUser(bs, id) :: b in bs
  {
    if bs != [] {
      WithoutUserIsPart(bs[..|bs| - 1], id);
    }
  }

  lemma CommitKeepsBelong(db: Db, tx: Tx)
    requires BindingsBelong(db) && Admissible(db, tx)
    ensures BindingsBelong(Commit(db, tx))
  {
    hide WithoutUser;
    if tx.Update? {
      WithoutUserIsPart(db.bindings, tx.id);
    }
  }

  lemma {:induction false} BindingsAlwaysBelong(txs: seq<Tx>)
    ensures BindingsBelong(Run(SEED, txs))
  {
    if txs != [] {
      hide Commit, BindingsBelong;
      var db, tx := Run(SEED, txs[..|txs| - 1]), txs[|txs| - 1];
      BindingsAlwaysBelong(txs[..|txs| - 1]);
      if Admissible(db, tx) {
        CommitKeepsBelong(db, tx);
      }
    }
  }

  lemma {:induction false} NoRoles(bs: seq<Binding>, u: Id)
    requires forall b | b in bs :: !BoundTo(b, u)
    ensures RolesOf(bs, u) == []
  {
    if bs != [] {
      NoRoles(bs[..|bs| - 1], u);
    }
  }

  /** Theorem: a user created in any reachable state is live, is called by its name or else its username, and has
      exactly the given roles. */
  lemma CreatedUser(txs: seq<Tx>, tx: Tx)
    requires tx.Create? && Admissible(Run(SEED, txs), tx)
    ensures var db', input := Commit(Run(SEED, txs), tx), tx.input;
            && LiveUser(db', tx.uid) && db'.users[tx.uid].profile == input.profile
            && db'.users[tx.uid].name == (if input.name != "" then input.name else input.username)
            && db'.users[tx.uid].status == (if input.status.Some? then input.status.value else 1)
            && RolesOf(db'.bindings, tx.uid) == input.roleIds
  {
    hide Run;
    var db, rows := Run(SEED, txs), NewBindings(tx.uid, tx.input.roleIds, tx.rowIds);
    BindingsAlwaysBelong(txs);
    NoRoles(db.bindings, tx.uid);
    RolesConcat(db.bindings, rows, tx.uid);
    RolesNew(tx.uid, tx.input.roleIds, tx.rowIds, tx.uid);
  }

  // ---------------------------------------------------------------- columns over whole runs

  datatype Column = NameOf | DeptOf | GenderOf | PhoneOf | EmailOf | AvatarOf | ProfileOf | StatusOf
  datatype Value = Text(text: string) | Number(number: int)

  function AsText(s: Option<string>): Option<Value> {
    if s.Some? then Some(Text(s.value)) else None
  }

  /** What an update gives for a column. */
  function Given(col: Column, p: UserPatch): Option<Value> {
    match col
    case NameOf => AsText(p.name)
    case DeptOf => AsText(p.profile.deptId)
    case GenderOf => AsText(p.profile.gender)
    case PhoneOf => AsText(p.profile.phone)
    case EmailOf => AsText(p.profile.email)
    case AvatarOf => AsText(p.profile.avatar)
    case ProfileOf => AsText(p.profile.profile)
    case StatusOf => if p.status.Some? then Some(Number(p.status.value)) else None
  }

  function Stored(col: Column, u: User): Option<Value> {
    match col
    case NameOf => Some(Text(u.name))
    case DeptOf => AsText(u.profile.deptId)
    case GenderOf => AsText(u.profile.gender)
    case PhoneOf => AsText(u.profile.phone)
    case EmailOf => AsText(u.profile.email)
    case AvatarOf => AsText(u.profile.avatar)
    case ProfileOf => AsText(u.profile.profile)
    case StatusOf => Some(Number(u.status))
  }

  /** The transaction commits an update that gives this column of the user a value. */
  predicate Writes(db: Db, tx: Tx, id: Id, col: Column) {
    Admissible(db, tx) && tx.Update? && tx.id == id && LiveUser(db, id) && Given(col, tx.update.patch).Some?
  }

  lemma ColumnStep(db: Db, tx: Tx, id: Id, col: Column)
    requires id in db.users
    ensures id in Apply(db, tx).users
    ensures Stored(col, Apply(db, tx).users[id]) ==
            if Writes(db, tx, id, col) then Given(col, tx.update.patch) else Stored(col, db.users[id])
  {
    hide AccountTaken, NewBindings, UpdatedBindings, NewUser, NewAccount;
  }

  lemma {:induction false} ColumnKept(db0: Db, txs: seq<Tx>, k: nat, id: Id, col: Column)
    requires k <= |txs| && id in Run(db0, txs[..k]).users
    requires forall j | k <= j < |txs| :: !Writes(Run(db0, txs[..j]), txs[j], id, col)
    ensures id in Run(db0, txs).users
    ensures Stored(col, Run(db0, txs).users[id]) == Stored(col, Run(db0, txs[..k]).users[id])
  {
    if k == |txs| {
      assert txs[..k] == txs;
    } else {
      hide Apply, Stored, Writes;
      var front := txs[..|txs| - 1];
      forall j | 0 <= j < |txs| ensures front[..j] == txs[..j] {
      }
      ColumnKept(db0, front, k, id, col);
      ColumnStep(Run(db0, front), txs[|txs| - 1], id, col);
    }
  }

  /** Theorem: over every run the last committed update that gives a column of a live user a value decides what is
      stored in it, whatever else is created, updated or deleted afterwards. */
  lemma LastWriteWins(db0: Db, txs: seq<Tx>, k: nat, id: Id, col: Column)
    requires k < |txs| && Writes(Run(db0, txs[..k]), txs[k], id, col)
    requires forall j | k < j < |txs| :: !Writes(Run(db0, txs[..j]), txs[j], id, col)
    ensures id in Run(db0, txs).users
    ensures Stored(col, Run(db0, txs).users[id]) == Given(col, txs[k].update.patch)
  {
    assert txs[..k + 1][..k] == txs[..k];
    ColumnStep(Run(db0, txs[..k]), txs[k], id, col);
    hide Apply, Stored, Given;
    ColumnKept(db0, txs, k + 1, id, col);
  }

  // ---------------------------------------------------------------- who gets in, by history

  /** What lets the owner of an account in. */
  datatype Credential = Credential(userId: Id, name: string, secret: string)

  /** One committed transaction and one account: it is created once, its secret is replaced by every update of its user
      that gives one and by nothing else, and it dies with its user. */
  function CredentialAfter(a: Id, c: Option<Credential>, tx: Tx): Option<Credential> {
    match tx
    case Create(uid, aid, input, hash, _) => if aid == a then Some(Credential(uid, input.username, hash)) else c
    case Update(id, update, _) =>
      if c.Some? && c.value.userId == id && update.secret.Some?
      then Some(c.value.(secret := update.secret.value)) else c
    case Delete(id) => if c.Some? && c.value.userId == id then None else c
  }

  /** The credential of an account after a run from the seeded state. */
  function History(txs: seq<Tx>, a: Id): Option<Credential> {
    if txs == [] then if a == "1" then Some(Credential(ADMIN_ID, "admin", "bcrypt")) else None
    else
      var before := txs[..|txs| - 1];
      if Admissible(Run(SEED, before), txs[|txs| - 1]) then CredentialAfter(a, History(before, a), txs[|txs| - 1])
      else History(before, a)
  }

  /** The account holds the credential and its owner may use it; without one it cannot be used at all. */
  ghost predicate Holds(db: Db, a: Id, c: Option<Credential>) {
    if c.None? then a in db.accounts ==> db.accounts[a].deleted
    else
      a in db.accounts &&
      var x := db.accounts[a];
      && x.userType == "SysUser" && x.userId == c.value.userId && x.authType == "PWD" && x.authAccount == c.value.name
      && x.authSecret == Some(c.value.secret) && x.status == 1 && !x.deleted && LiveUser(db, c.value.userId)
  }

  lemma HoldsAfter(db: Db, a: Id, c: Option<Credential>, tx: Tx)
    requires Holds(db, a, c) && Admissible(db, tx)
    ensures Holds(Commit(db, tx), a, CredentialAfter(a, c, tx))
  {
    match tx
    case Create(_, _, _, _, _) => hide AccountTaken, NewBindings;
    case Update(id, update, _) => UpdateHolds(db, a, c, tx);
    case Delete(id) => DeleteHolds(db, a, c, id);
  }

  lemma UpdateHolds(db: Db, a: Id, c: Option<Credential>, tx: Tx)
    requires Holds(db, a, c) && tx.Update? && Admissible(db, tx)
    ensures Holds(Commit(db, tx), a, CredentialAfter(a, c, tx))
  {
    hide UpdatedBindings;
    var db' := Commit(db, tx);
    assert db'.accounts.Keys == db.accounts.Keys;
    assert forall u :: LiveUser(db', u) <==> LiveUser(db, u);
    if a in db.accounts {
      assert db'.accounts[a] == if tx.update.secret.Some? && AccountHit(db.accounts[a], tx.id)
                                   && db.accounts[a].authType == "PWD"
                                then db.accounts[a].(authSecret := tx.update.secret) else db.accounts[a];
    }
  }

  lemma DeleteHolds(db: Db, a: Id, c: Option<Credential>, id: Id)
    requires Holds(db, a, c)
    ensures Holds(Commit(db, Delete(id)), a, CredentialAfter(a, c, Delete(id)))
  {
    var db' := Commit(db, Delete(id));
    assert db'.accounts.Keys == db.accounts.Keys;
    if a in db.accounts {
      assert db'.accounts[a] ==
             if AccountHit(db.accounts[a], id) then db.accounts[a].(deleted := true) else db.accounts[a];
    }
  }

  lemma {:induction false} HistoryHolds(txs: seq<Tx>, a: Id)
    ensures Holds(Run(SEED, txs), a, History(txs, a))
  {
    if txs != [] {
      hide Commit, Holds, CredentialAfter, Admissible;
      var before, tx := txs[..|txs| - 1], txs[|txs| - 1];
      HistoryHolds(before, a);
      if Admissible(Run(SEED, before), tx) {
        HoldsAfter(Run(SEED, before), a, History(before, a), tx);
      }
    } else {
      hide Admissible;
    }
  }

  /** Theorem: in every reachable state an account lets somebody in exactly with the name it was created with and a
      password that matches the hash of its creation or of the last committed update of its user that gave
      one, as long as that user was not deleted; and it lets in its user. */
  lemma LoginFollowsHistory(txs: seq<Tx>, a: Id, name: string, password: string, verify: (string, string) -> bool)
    ensures Login(Run(SEED, txs), a, name, password, verify) ==
            match History(txs, a)
            case None => None
            case Some(c) => if name == c.name && verify(c.secret, password) then Some(c.userId) else None
  {
    hide Run, History;
    HistoryHolds(txs, a);
  }

  /** The transaction replaces the password of the user, or removes the user. */
  predicate ChangesLogin(db: Db, tx: Tx, id: Id) {
    Admissible(db, tx) && ((tx.Update? && tx.id == id && tx.update.secret.Some?) || (tx.Delete? && tx.id == id))
  }

  lemma {:induction false} HistoryKept(txs: seq<Tx>, k: nat, a: Id, u: Id)
    requires k <= |txs| && History(txs[..k], a).Some? && History(txs[..k], a).value.userId == u
    requires forall j | k <= j < |txs| :: !ChangesLogin(Run(SEED, txs[..j]), txs[j], u)
    ensures History(txs, a) == History(txs[..k], a)
  {
    if k == |txs| {
      assert txs[..k] == txs;
    } else {
      hide Apply, Admissible;
      var front := txs[..|txs| - 1];
      forall j | 0 <= j < |txs| ensures front[..j] == txs[..j] {
      }
      HistoryKept(front, k, a, u);
      HistoryHolds(front, a);
      CreateIsNew(Run(SEED, front), txs[|txs| - 1], a, History(front, a));
    }
  }

  lemma CreateIsNew(db: Db, tx: Tx, a: Id, c: Option<Credential>)
    requires Holds(db, a, c) && c.Some?
    ensures Admissible(db, tx) && tx.Create? ==> tx.aid != a
  {
  }

  /** Theorem: a password that lets a user in keeps doing so, whatever else is created, updated or deleted, until an
      update of that user gives a new one or the user is deleted. */
  lemma PasswordStays(txs: seq<Tx>, k: nat, a: Id, name: string, password: string,
                      verify: (string, string) -> bool, u: Id)
    requires k <= |txs| && Login(Run(SEED, txs[..k]), a, name, password, verify) == Some(u)
    requires forall j | k <= j < |txs| :: !ChangesLogin(Run(SEED, txs[..j]), txs[j], u)
    ensures Login(Run(SEED, txs), a, name, password, verify) == Some(u)
  {
    hide Run, History, ChangesLogin, Login;
    LoginFollowsHistory(txs[..k], a, name, password, verify);
    HistoryKept(txs, k, a, u);
    LoginFollowsHistory(txs, a, name, password, verify);
  }

  // ---------------------------------------------------------------- bindings of other kinds

  /** Theorem: no transaction touches a binding of another kind of user, or of another user. */
  lemma ForeignBindingsStay(db: Db, tx: Tx, b: Binding)
    requires Admissible(db, tx)
    requires !(b.userType == "SysUser" && b.userId == (if tx.Create? then tx.uid else tx.id))
    ensures b in Commit(db, tx).bindings <==> b in db.bindings
  {
    match tx
    case Create(uid, _, input, _, rowIds) =>
    case Update(id, update, rowIds) => WithoutUserKeeps(db.bindings, id, b);
    case Delete(_) =>
  }

  lemma {:induction false} WithoutUserKeeps(bs: seq<Binding>, id: Id, b: Binding)
    requires !(b.userType == "SysUser" && b.userId == id)
    ensures b in WithoutUser(bs, id) <==> b in bs
  {
    if bs != [] {
      WithoutUserKeeps(bs[..|bs| - 1], id, b);
      assert bs == bs[..|bs| - 1] + [bs[|bs| - 1]];
    }
  }
}
