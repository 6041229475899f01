/** The users table and the decisions of the login, register and admin-toggle handlers of
    routes.py, as functions from the table (and the session) to an outcome and a new table. */
module Accounts {
  import opened Common
  import Forms

  /** A stored password credential. Hashing and checking are parameters of the model. */
  datatype Hash = Hash(digest: string)

  datatype User = User(
    id: nat, username: string, email: string, passwordHash: Hash,
    isActiveUser: bool, isAdmin: bool)

  /** What the users table fills in when the register handler leaves a column unset. */
  datatype ColumnDefaults = ColumnDefaults(isActiveUser: bool, isAdmin: bool)

  /** Ids are 1, 2, ... in insertion order: an auto-increment key on a table without deletes. */
  predicate IdsSequential(users: seq<User>) {
    forall i :: 0 <= i < |users| ==> users[i].id == i + 1
  }

  predicate EmailsUnique(users: seq<User>) {
    forall i, j :: 0 <= i < j < |users| ==> users[i].email != users[j].email
  }

  predicate UsersValid(users: seq<User>) {
    IdsSequential(users) && EmailsUnique(users)
  }

  /** The two columns the handlers look users up by. */
  datatype UserKey = ByEmail(email: string) | ById(id: int)

  predicate HasKey(u: User, key: UserKey) {
    match key
    case ByEmail(e) => u.email == e
    case ById(n) => u.id == n
  }

  /** The first record with the key: `User.query.filter_by(email=e).first()` for an e-mail,
      `User.query.get(n)` for a primary key. */
  function Find(users: seq<User>, key: UserKey): (r: Option<nat>)
    ensures r.Some? ==> r.value < |users| && HasKey(users[r.value], key)
    ensures r.Some? ==> forall j :: 0 <= j < r.value ==> !HasKey(users[j], key)
    ensures r.None? ==> forall j :: 0 <= j < |users| ==> !HasKey(users[j], key)
  {
    if users == [] then None
    else if HasKey(users[0], key) then Some(0)
    else match Find(users[1..], key)
      case None => None
      case Some(k) => Some(k + 1)
  }

  /** On a sequentially numbered table the key `id` sits at position `id - 1`. */
  lemma FindIdSequential(users: seq<User>, id: int)
    requires IdsSequential(users)
    ensures Find(users, ById(id)) == if 1 <= id <= |users| then Some(id - 1) else None
  {
    if 1 <= id <= |users| {
      assert users[id - 1].id == id;
    }
  }

  /** The record of the logged-in user, if the session names one that exists. */
  function CurrentUser(users: seq<User>, session: Option<nat>): (r: Option<nat>)
    ensures r.Some? ==> session.Some? && r.value < |users| && users[r.value].id == session.value
    ensures session.None? ==> r.None?
    ensures session.Some? && (exists j :: 0 <= j < |users| && users[j].id == session.value) ==> r.Some?
  {
    if session.None? then None else Find(users, ById(session.value))
  }

  /** The `current_user.is_admin` gate: a logged-in caller whose record has the admin flag. */
  function IsAdminSession(users: seq<User>, session: Option<nat>): (ok: bool)
    ensures ok ==> session.Some? && exists j :: 0 <= j < |users| && users[j].id == session.value && users[j].isAdmin
    ensures session.None? ==> !ok
  {
    CurrentUser(users, session).Some? && users[CurrentUser(users, session).value].isAdmin
  }

  /** On a table numbered 1..n, session `n` passes the admin gate exactly when record `n`
      exists and has the admin flag. */
  lemma AdminSessionSequential(users: seq<User>, n: nat)
    requires IdsSequential(users)
    ensures IsAdminSession(users, Some(n)) <==> 1 <= n <= |users| && users[n - 1].isAdmin
  {
    FindIdSequential(users, n);
  }

  // ---------------------------------------------------------------------------
  // login (routes.py:30-47)

  datatype LoginOutcome =
    | AlreadyAuthenticated
    | LoginFormRejected
    | LoggedIn(userId: nat)
    | AccountDeactivated
    | BadCredentials

  /** The login handler: its outcome and the session afterwards. `matches` stands for the
      password-hash check. The table is an input only: login never changes it. */
  function LoginStep(
    users: seq<User>, session: Option<nat>, f: Forms.LoginFields,
    isEmail: string -> bool, matches: (Hash, string) -> bool): (r: (LoginOutcome, Option<nat>))
    ensures r.1 == if r.0.LoggedIn? then Some(r.0.userId) else session
    ensures r.0.LoggedIn? ==>
      exists i :: 0 <= i < |users| && users[i].id == r.0.userId && users[i].email == f.email
                  && matches(users[i].passwordHash, f.password) && users[i].isActiveUser
    ensures r.0.AccountDeactivated? ==>
      exists i :: 0 <= i < |users| && users[i].email == f.email
                  && matches(users[i].passwordHash, f.password) && !users[i].isActiveUser
    ensures r.0.AlreadyAuthenticated? <==> CurrentUser(users, session).Some?
    ensures (r.0.LoggedIn? || r.0.AccountDeactivated? || r.0.BadCredentials?) ==> Forms.LoginValid(f, isEmail)
  {
    if CurrentUser(users, session).Some? then (AlreadyAuthenticated, session)
    else if !Forms.LoginValid(f, isEmail) then (LoginFormRejected, session)
    else match Find(users, ByEmail(f.email))
      case None => (BadCredentials, session)
      case Some(i) =>
        if !matches(users[i].passwordHash, f.password) then (BadCredentials, session)
        else if users[i].isActiveUser then (LoggedIn(users[i].id), Some(users[i].id))
        else (AccountDeactivated, session)
  }

  /** With unique e-mails, a valid login form for an account's e-mail is judged on that account
      alone: a wrong password is a bad credential whatever the active flag, a right one logs in
      an active account and reports a deactivated one. */
  lemma LoginJudgesTheAccount(
    users: seq<User>, session: Option<nat>, f: Forms.LoginFields,
    isEmail: string -> bool, matches: (Hash, string) -> bool, i: nat)
    requires EmailsUnique(users) && i < |users| && users[i].email == f.email
    requires CurrentUser(users, session).None? && Forms.LoginValid(f, isEmail)
    ensures LoginStep(users, session, f, isEmail, matches).0 ==
      if !matches(users[i].passwordHash, f.password) then BadCredentials
      else if users[i].isActiveUser then LoggedIn(users[i].id)
      else AccountDeactivated
  {
  }

  /** An e-mail no account has is always a bad credential and never starts a session. */
  lemma LoginUnknownEmail(
    users: seq<User>, session: Option<nat>, f: Forms.LoginFields,
    isEmail: string -> bool, matches: (Hash, string) -> bool)
    requires forall i :: 0 <= i < |users| ==> users[i].email != f.email
    requires CurrentUser(users, session).None? && Forms.LoginValid(f, isEmail)
    ensures LoginStep(users, session, f, isEmail, matches) == (BadCredentials, session)
  {
  }

  // ---------------------------------------------------------------------------
  // register (routes.py:49-67)

  datatype RegisterOutcome = RegisterFormRejected | EmailTaken | Registered(userId: nat)

  /** The register handler: its outcome and the users table afterwards. `hash` stands for the
      password-hashing function. */
  function RegisterStep(
    users: seq<User>, f: Forms.RegisterFields, isEmail: string -> bool,
    hash: string -> Hash, defaults: ColumnDefaults): (r: (RegisterOutcome, seq<User>))
    ensures r.0.Registered? <==>
      Forms.RegisterValid(f, isEmail) && forall i :: 0 <= i < |users| ==> users[i].email != f.email
    ensures r.0.EmailTaken? <==>
      Forms.RegisterValid(f, isEmail) && exists i :: 0 <= i < |users| && users[i].email == f.email
    ensures !r.0.Registered? ==> r.1 == users
    ensures r.0.Registered? ==> |r.1| == |users| + 1 && r.1[..|users|] == users
    ensures r.0.Registered? ==> r.0.userId == r.1[|users|].id == |users| + 1
    ensures r.0.Registered? ==>
      r.1[|users|] == User(|users| + 1, f.username, f.email, hash(f.password), defaults.isActiveUser, defaults.isAdmin)
  {
    if !Forms.RegisterValid(f, isEmail) then (RegisterFormRejected, users)
    else if Find(users, ByEmail(f.email)).Some? then (EmailTaken, users)
    else
      var u := User(|users| + 1, f.username, f.email, hash(f.password),
                    defaults.isActiveUser, defaults.isAdmin);
      (Registered(u.id), users + [u])
  }

  /** Registering keeps ids sequential and e-mails unique. */
  lemma RegisterKeepsUsersValid(
    users: seq<User>, f: Forms.RegisterFields, isEmail: string -> bool,
    hash: string -> Hash, defaults: ColumnDefaults)
    requires UsersValid(users)
    ensures UsersValid(RegisterStep(users, f, isEmail, hash, defaults).1)
  {
  }

  /** Registering the same e-mail twice: the second attempt is refused and the table keeps the
      single row the first one added. */
  lemma RegisterSameEmailTwice(
    users: seq<User>, f: Forms.RegisterFields, g: Forms.RegisterFields, isEmail: string -> bool,
    hash: string -> Hash, defaults: ColumnDefaults)
    requires RegisterStep(users, f, isEmail, hash, defaults).0.Registered?
    requires g.email == f.email && Forms.RegisterValid(g, isEmail)
    ensures var once := RegisterStep(users, f, isEmail, hash, defaults).1;
      RegisterStep(once, g, isEmail, hash, defaults) == (EmailTaken, once)
  {
  }

  /** Registering and then logging in with the same e-mail and password: the new account is
      found, and it logs in when the password check accepts its own hash and new accounts are
      active by default. */
  lemma RegisterThenLogin(
    users: seq<User>, f: Forms.RegisterFields, isEmail: string -> bool,
    hash: string -> Hash, matches: (Hash, string) -> bool, defaults: ColumnDefaults)
    requires RegisterStep(users, f, isEmail, hash, defaults).0.Registered?
    requires matches(hash(f.password), f.password)
    ensures var once := RegisterStep(users, f, isEmail, hash, defaults).1;
      LoginStep(once, None, Forms.LoginFields(f.email, f.password), isEmail, matches).0
        == if defaults.isActiveUser then LoggedIn(|users| + 1) else AccountDeactivated
  {
    var once := RegisterStep(users, f, isEmail, hash, defaults).1;
    assert Find(once, ByEmail(f.email)) == Some(|users|) by {
      FindAfterMissing(users, once[|users|], ByEmail(f.email));
    }
  }

  /** A key no earlier record carries is found on the record appended after them. */
  lemma {:induction false} FindAfterMissing(users: seq<User>, u: User, key: UserKey)
    requires forall j :: 0 <= j < |users| ==> !HasKey(users[j], key)
    requires HasKey(u, key)
    ensures Find(users + [u], key) == Some(|users|)
  {
    if users != [] {
      assert (users + [u])[1..] == users[1..] + [u];
      FindAfterMissing(users[1..], u, key);
    }
  }

  // ---------------------------------------------------------------------------
  // toggle_user_status and toggle_admin_status (routes.py:250-284)

  /** The flag a toggle handler flips: `is_active_user` or `is_admin`. */
  datatype Flag = ActiveFlag | AdminFlag

  function FlagOf(u: User, flag: Flag): bool {
    match flag
    case ActiveFlag => u.isActiveUser
    case AdminFlag => u.isAdmin
  }

  /** `u` with the given flag set to `b` and every other column as it was. */
  function WithFlag(u: User, flag: Flag, b: bool): (v: User)
    ensures FlagOf(v, flag) == b
    ensures flag.ActiveFlag? ==> v.isAdmin == u.isAdmin
    ensures flag.AdminFlag? ==> v.isActiveUser == u.isActiveUser
    ensures v.id == u.id && v.username == u.username && v.email == u.email
    ensures v.passwordHash == u.passwordHash
  {
    match flag
    case ActiveFlag => u.(isActiveUser := b)
    case AdminFlag => u.(isAdmin := b)
  }

  datatype ToggleOutcome =
    | NotAuthenticated
    | AccessDenied
    | NotFound
    | SelfToggleRefused
    | Toggled(userId: nat, nowSet: bool)

  /** A toggle handler: the admin gate, the look-up of the target, the self-protection rule,
      and the flip of one flag on one record. */
  function ToggleStep(users: seq<User>, session: Option<nat>, target: nat, flag: Flag)
    : (r: (ToggleOutcome, seq<User>))
    ensures r.0.Toggled? <==>
      IsAdminSession(users, session) && Find(users, ById(target)).Some? && session != Some(target)
    ensures r.0.NotFound? <==> IsAdminSession(users, session) && Find(users, ById(target)).None?
    ensures r.0.SelfToggleRefused? <==>
      IsAdminSession(users, session) && Find(users, ById(target)).Some? && session == Some(target)
    ensures r.0.AccessDenied? <==> CurrentUser(users, session).Some? && !IsAdminSession(users, session)
    ensures !r.0.Toggled? ==> r.1 == users
    ensures r.0.Toggled? ==> r.0.userId == target
    ensures |r.1| == |users|
  {
    match CurrentUser(users, session)
    case None => (NotAuthenticated, users)
    case Some(me) =>
      if !users[me].isAdmin then (AccessDenied, users)
      else match Find(users, ById(target))
        case None => (NotFound, users)
        case Some(t) =>
          if users[t].id == users[me].id then (SelfToggleRefused, users)
          else
            var now := !FlagOf(users[t], flag);
            (Toggled(users[t].id, now), users[t := WithFlag(users[t], flag, now)])
  }

  /** A look-up by id sees only the id column: two tables with the same ids, row by row,
      find every id at the same position. */
  lemma {:induction false} FindByIdSeesOnlyIds(a: seq<User>, b: seq<User>, id: int)
    requires |a| == |b|
    requires forall j :: 0 <= j < |a| ==> a[j].id == b[j].id
    ensures Find(a, ById(id)) == Find(b, ById(id))
  {
    if a != [] && a[0].id != id {
      FindByIdSeesOnlyIds(a[1..], b[1..], id);
    }
  }

  /** A successful toggle negates the one flag on the target's record and changes nothing else:
      no other record, and no other column of the target. */
  lemma ToggleChangesOnlyTargetFlag(users: seq<User>, session: Option<nat>, target: nat, flag: Flag)
    requires ToggleStep(users, session, target, flag).0.Toggled?
    ensures Find(users, ById(target)).Some?
    ensures var r := ToggleStep(users, session, target, flag);
      var t := Find(users, ById(target)).value;
      var before := users[t];
      before.id == target
      && r.1 == users[t := WithFlag(before, flag, !FlagOf(before, flag))]
      && r.0.nowSet == !FlagOf(before, flag)
  {
  }

  /** On a table numbered 1..n the toggled record is the one at position `target - 1`. */
  lemma ToggleHitsPosition(users: seq<User>, session: Option<nat>, target: nat, flag: Flag)
    requires IdsSequential(users)
    requires ToggleStep(users, session, target, flag).0.Toggled?
    ensures 1 <= target <= |users|
    ensures var before := users[target - 1];
      ToggleStep(users, session, target, flag).1
        == users[target - 1 := WithFlag(before, flag, !FlagOf(before, flag))]
  {
    FindIdSequential(users, target);
  }

  /** Toggling never touches the record of the user who asks for it; in particular an
      administrator cannot take away their own admin flag. */
  lemma ToggleSparesCaller(
    users: seq<User>, session: Option<nat>, target: nat, flag: Flag, j: nat)
    requires session.Some? && j < |users| && users[j].id == session.value
    ensures ToggleStep(users, session, target, flag).1[j] == users[j]
  {
  }

  /** The caller stays an administrator after any admin toggle. */
  lemma AdminKeepsOwnAdminFlag(users: seq<User>, session: Option<nat>, target: nat)
    requires IsAdminSession(users, session)
    ensures IsAdminSession(ToggleStep(users, session, target, AdminFlag).1, session)
  {
    var after := ToggleStep(users, session, target, AdminFlag).1;
    var me := CurrentUser(users, session).value;
    ToggleSparesCaller(users, session, target, AdminFlag, me);
    ToggleKeepsIds(users, session, target, AdminFlag);
    FindByIdSeesOnlyIds(users, after, session.value);
  }

  /** Toggling keeps every id and every e-mail where it was. */
  lemma ToggleKeepsIds(users: seq<User>, session: Option<nat>, target: nat, flag: Flag)
    ensures var after := ToggleStep(users, session, target, flag).1;
      forall j :: 0 <= j < |users| ==> after[j].id == users[j].id && after[j].email == users[j].email
  {
  }

  lemma ToggleKeepsUsersValid(users: seq<User>, session: Option<nat>, target: nat, flag: Flag)
    requires UsersValid(users)
    ensures UsersValid(ToggleStep(users, session, target, flag).1)
  {
  }

  /** Two identical toggle requests in a row restore the users table, whatever the ids. */
  lemma ToggleTwiceRestores(users: seq<User>, session: Option<nat>, target: nat, flag: Flag)
    ensures var once := ToggleStep(users, session, target, flag).1;
      ToggleStep(once, session, target, flag).1 == users
  {
    var r := ToggleStep(users, session, target, flag);
    if r.0.Toggled? {
      var once := r.1;
      ToggleChangesOnlyTargetFlag(users, session, target, flag);
      ToggleKeepsIds(users, session, target, flag);
      FindByIdSeesOnlyIds(users, once, session.value);
      FindByIdSeesOnlyIds(users, once, target);
      var me := CurrentUser(users, session).value;
      ToggleSparesCaller(users, session, target, flag, me);
      assert ToggleStep(once, session, target, flag).0.Toggled?;
      ToggleChangesOnlyTargetFlag(once, session, target, flag);
    }
  }
}
