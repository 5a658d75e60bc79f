/**
 * User accounts: the role gate and insert of registration, the password-reset
 * token, the organiser-promotion workflow (Backend/controllers/authController.js
 * and the approve/reject handlers of Backend/controllers/adminController.js)
 * and the profile update of Backend/controllers/userController.js.
 *
 * Password hashing and token hashing are foreign calls: a password is stored
 * as given and a reset token arrives already hashed.
 */
module Accounts {
  import opened Domain

  /** The secret used when ADMIN_SECRET is unset or empty. */
  const DefaultAdminSecret: string := "admin123"

  /** How long a reset token stays valid, in milliseconds (one hour). */
  const ResetWindow: int := 3600000

  /** `process.env.ADMIN_SECRET || "admin123"`; "" stands for an unset variable. */
  function AdminSecret(configured: string): string
  {
    if configured != "" then configured else DefaultAdminSecret
  }

  /** Usernames and emails are unique indexes: no two accounts share either. */
  ghost predicate UniqueAccounts(users: map<UserId, User>)
  {
    forall i, j | i in users && j in users && i != j ::
      users[i].username != users[j].username && users[i].email != users[j].email
  }

  /** Every account id was handed out by the allocator. */
  ghost predicate IdsAllocated(db: Db)
  {
    forall k | k in db.users :: k < db.nextId
  }

  /**
   * `findOne(filter)` in natural (creation) order: the smallest allocated id
   * at or above `i` whose account satisfies `p`.
   */
  function FirstWith(users: map<UserId, User>, limit: nat, i: nat, p: User -> bool): (r: Option<UserId>)
    requires i <= limit
    ensures r.Some? ==> i <= r.value < limit && r.value in users && p(users[r.value])
    ensures forall k | i <= k < limit && (r.None? || k < r.value) :: k !in users || !p(users[k])
    decreases limit - i
  {
    if i == limit then None
    else if i in users && p(users[i]) then Some(i)
    else FirstWith(users, limit, i + 1, p)
  }

  // ---------------------------------------------------------------------------
  // authController.register

  /**
   * The role a registration gets: an admin registration must carry the
   * configured secret; an absent role ("") becomes "user".
   */
  function RegisterRole(role: string, adminSecret: Option<string>, configured: string): (r: Result<string>)
    ensures r.Err? <==> role == RoleAdmin && adminSecret != Some(AdminSecret(configured))
    ensures r.Err? ==> r.error == InvalidAdminSecret
    ensures r.Ok? ==> r.value == (if role == "" then RoleUser else role) && r.value != ""
    ensures r.Ok? && r.value == RoleAdmin ==> adminSecret == Some(AdminSecret(configured))
  {
    if role == RoleAdmin && adminSecret != Some(AdminSecret(configured)) then Err(InvalidAdminSecret)
    else Ok(if role == "" then RoleUser else role)
  }

  /**
   * A new account under a fresh id; a username or email that is already
   * taken fails the unique index (the username is reported first).
   */
  function Register(db: Db, username: string, email: string, password: string,
                    role: string, adminSecret: Option<string>, configured: string): (r: (Result<UserId>, Db))
    ensures r.0.Err? ==> r.1 == db
    ensures r.0 == Err(InvalidAdminSecret) <==> RegisterRole(role, adminSecret, configured).Err?
    ensures r.0 == Err(UsernameTaken) <==>
      RegisterRole(role, adminSecret, configured).Ok? && exists k | k in db.users :: db.users[k].username == username
    ensures r.0 == Err(EmailInUse) <==>
      && RegisterRole(role, adminSecret, configured).Ok?
      && (forall k | k in db.users :: db.users[k].username != username)
      && exists k | k in db.users :: db.users[k].email == email
    ensures (&& RegisterRole(role, adminSecret, configured).Ok?
             && !UsernameHeld(db.users, username) && !EmailHeld(db.users, email))
            ==> r.0.Ok?
    ensures r.0.Ok? ==>
      && r.0.value == db.nextId
      && r.1 == db.(users := db.users[db.nextId := User(username, email, "", "", password,
                                                        RegisterRole(role, adminSecret, configured).value,
                                                        NoRequest, None, None)],
                    nextId := db.nextId + 1)
  {
    match RegisterRole(role, adminSecret, configured)
    case Err(e) => (Err(e), db)
    case Ok(granted) =>
      if exists k | k in db.users :: db.users[k].username == username then (Err(UsernameTaken), db)
      else if exists k | k in db.users :: db.users[k].email == email then (Err(EmailInUse), db)
      else
        var u := User(username, email, "", "", password, granted, NoRequest, None, None);
        (Ok(db.nextId), db.(users := db.users[db.nextId := u], nextId := db.nextId + 1))
  }

  // ---------------------------------------------------------------------------
  // authController.forgotPassword and authController.resetPassword

  /** The account a reset request with this hashed token finds at time `now`. */
  predicate ResetMatches(u: User, tokenHash: string, now: int)
  {
    && u.resetPasswordToken == Some(tokenHash)
    && u.resetPasswordExpires.Some? && u.resetPasswordExpires.value > now
  }

  /** `User.findOne({ email })`: the first account with this email. */
  function AccountWithEmail(db: Db, email: string): (r: Option<UserId>)
    ensures r.Some? ==> r.value < db.nextId && r.value in db.users && db.users[r.value].email == email
    ensures r.None? <==> forall k | k < db.nextId && k in db.users :: db.users[k].email != email
    ensures r.Some? ==> forall k | k < r.value && k in db.users :: db.users[k].email != email
  {
    FirstWith(db.users, db.nextId, 0, (u: User) => u.email == email)
  }

  /** `User.findOne({ resetPasswordToken, resetPasswordExpires: { $gt: now } })`. */
  function AccountWithToken(db: Db, tokenHash: string, now: int): (r: Option<UserId>)
    ensures r.Some? ==> r.value < db.nextId && r.value in db.users && ResetMatches(db.users[r.value], tokenHash, now)
    ensures r.None? <==> forall k | k < db.nextId && k in db.users :: !ResetMatches(db.users[k], tokenHash, now)
    ensures r.Some? ==> forall k | k < r.value && k in db.users :: !ResetMatches(db.users[k], tokenHash, now)
  {
    FirstWith(db.users, db.nextId, 0, (u: User) => ResetMatches(u, tokenHash, now))
  }

  /** Stores a hashed reset token that expires one hour after `now` on the first account with this email. */
  function ForgotPassword(db: Db, email: string, tokenHash: string, now: int): (r: (Result<UserId>, Db))
    ensures r.0.Err? ==> r.1 == db && r.0.error == NotFound
    ensures r.0.Err? <==> forall k | k < db.nextId && k in db.users :: db.users[k].email != email
    ensures r.0.Ok? ==>
      var k := r.0.value;
      && k == AccountWithEmail(db, email).value
      && k in db.users && db.users[k].email == email
      && r.1 == db.(users := db.users[k := db.users[k].(resetPasswordToken := Some(tokenHash),
                                                          resetPasswordExpires := Some(now + ResetWindow))])
  {
    match AccountWithEmail(db, email)
    case None => (Err(NotFound), db)
    case Some(k) =>
      var u := db.users[k].(resetPasswordToken := Some(tokenHash), resetPasswordExpires := Some(now + ResetWindow));
      (Ok(k), db.(users := db.users[k := u]))
  }

  /**
   * Sets a new password on the account holding this unexpired hashed token and
   * clears the token, so that it cannot be used again.
   */
  function ResetPassword(db: Db, tokenHash: string, password: string, now: int): (r: (Outcome, Db))
    ensures r.0.Fail? ==> r.1 == db && r.0.error == InvalidOrExpiredToken
    ensures r.0.Fail? <==> forall k | k < db.nextId && k in db.users :: !ResetMatches(db.users[k], tokenHash, now)
    ensures r.0.Done? ==>
      && AccountWithToken(db, tokenHash, now).Some?
      && var k := AccountWithToken(db, tokenHash, now).value;
      && k in db.users && ResetMatches(db.users[k], tokenHash, now)
      && r.1 == db.(users := db.users[k := db.users[k].(password := password,
                                                          resetPasswordToken := None,
                                                          resetPasswordExpires := None)])
  {
    match AccountWithToken(db, tokenHash, now)
    case None => (Fail(InvalidOrExpiredToken), db)
    case Some(k) =>
      var u := db.users[k].(password := password, resetPasswordToken := None, resetPasswordExpires := None);
      (Done, db.(users := db.users[k := u]))
  }

  // ---------------------------------------------------------------------------
  // The organiser-promotion workflow

  /** A user asks to become an organiser: the request goes to Pending, the role stays. */
  function RequestOrganizerRole(db: Db, caller: UserId): (r: (Outcome, Db))
    ensures r.0.Fail? ==> r.1 == db
    ensures r.0 == Fail(NotFound) <==> caller !in db.users
    ensures r.0 == Fail(AlreadyOrganizer) <==> caller in db.users && db.users[caller].role == RoleOrganizer
    ensures r.0 == Fail(AdminCannotRequest) <==> caller in db.users && db.users[caller].role == RoleAdmin
    ensures r.0 == Fail(AlreadyPending) <==>
      && caller in db.users && db.users[caller].role != RoleOrganizer && db.users[caller].role != RoleAdmin
      && db.users[caller].organizerRequestStatus == Pending
    ensures (&& caller in db.users && db.users[caller].role != RoleOrganizer && db.users[caller].role != RoleAdmin
             && db.users[caller].organizerRequestStatus != Pending)
            ==> r.0.Done?
    ensures r.0.Done? ==>
      && caller in db.users
      && db.users[caller].organizerRequestStatus != Pending
      && r.1 == db.(users := db.users[caller := db.users[caller].(organizerRequestStatus := Pending)])
  {
    if caller !in db.users then (Fail(NotFound), db)
    else
      var u := db.users[caller];
      if u.role == RoleOrganizer then (Fail(AlreadyOrganizer), db)
      else if u.role == RoleAdmin then (Fail(AdminCannotRequest), db)
      else if u.organizerRequestStatus == Pending then (Fail(AlreadyPending), db)
      else (Done, db.(users := db.users[caller := u.(organizerRequestStatus := Pending)]))
  }

  /** An administrator approves: the account becomes an organiser, whatever its request status was. */
  function ApproveOrganizerRequest(db: Db, userId: UserId): (r: (Outcome, Db))
    ensures r.0.Fail? ==> r.1 == db && r.0.error == NotFound
    ensures r.0.Fail? <==> userId !in db.users
    ensures r.0.Done? ==>
      && r.1.users.Keys == db.users.Keys
      && r.1.users[userId] == db.users[userId].(role := RoleOrganizer, organizerRequestStatus := Approved)
      && (forall k | k in db.users && k != userId :: r.1.users[k] == db.users[k])
      && r.1.events == db.events && r.1.bookings == db.bookings && r.1.nextId == db.nextId
  {
    if userId !in db.users then (Fail(NotFound), db)
    else
      var u := db.users[userId].(role := RoleOrganizer, organizerRequestStatus := Approved);
      (Done, db.(users := db.users[userId := u]))
  }

  /** An administrator rejects: the status becomes Rejected and the role stays. */
  function RejectOrganizerRequest(db: Db, userId: UserId): (r: (Outcome, Db))
    ensures r.0.Fail? ==> r.1 == db && r.0.error == NotFound
    ensures r.0.Fail? <==> userId !in db.users
    ensures r.0.Done? ==>
      && r.1.users.Keys == db.users.Keys
      && r.1.users[userId] == db.users[userId].(organizerRequestStatus := Rejected)
      && (forall k | k in db.users && k != userId :: r.1.users[k] == db.users[k])
      && r.1.events == db.events && r.1.bookings == db.bookings && r.1.nextId == db.nextId
  {
    if userId !in db.users then (Fail(NotFound), db)
    else
      var u := db.users[userId].(organizerRequestStatus := Rejected);
      (Done, db.(users := db.users[userId := u]))
  }

  // ---------------------------------------------------------------------------
  // userController.updateProfile

  /**
   * The fields of a profile update: "" for a falsy username or email; None
   * when the phone or city key is absent from the request body.
   */
  datatype ProfilePatch = ProfilePatch(username: string, email: string, phone: Option<string>, city: Option<string>)

  /** Some account already holds this username. */
  predicate UsernameHeld(users: map<UserId, User>, name: string)
  {
    exists k | k in users :: users[k].username == name
  }

  /** Some account already holds this email. */
  predicate EmailHeld(users: map<UserId, User>, email: string)
  {
    exists k | k in users :: users[k].email == email
  }

  /**
   * A user edits their profile. A new username or email is taken only when no
   * account holds it; otherwise the reply is an error and nothing is saved.
   * A phone or city key that is present overwrites, even with "".
   */
  function UpdateProfile(db: Db, caller: UserId, patch: ProfilePatch): (r: (Result<User>, Db))
    ensures r.0.Err? ==> r.1 == db
    ensures r.0 == Err(NotFound) <==> caller !in db.users
    ensures r.0 == Err(UsernameTaken) <==>
      && caller in db.users
      && patch.username != "" && patch.username != db.users[caller].username
      && UsernameHeld(db.users, patch.username)
    ensures r.0 == Err(EmailInUse) <==>
      && caller in db.users && r.0 != Err(UsernameTaken)
      && patch.email != "" && patch.email != db.users[caller].email
      && EmailHeld(db.users, patch.email)
    ensures caller in db.users && r.0 != Err(UsernameTaken) && r.0 != Err(EmailInUse) ==> r.0.Ok?
    ensures r.0.Ok? ==>
      var was := db.users[caller];
      var u := r.0.value;
      && caller in db.users
      && r.1 == db.(users := db.users[caller := u])
      && u.username == (if patch.username != "" then patch.username else was.username)
      && u.email == (if patch.email != "" then patch.email else was.email)
      && (u.username != was.username ==> !UsernameHeld(db.users, u.username))
      && (u.email != was.email ==> !EmailHeld(db.users, u.email))
      && u.phone == (if patch.phone.Some? then patch.phone.value else was.phone)
      && u.city == (if patch.city.Some? then patch.city.value else was.city)
      && u.password == was.password && u.role == was.role
      && u.organizerRequestStatus == was.organizerRequestStatus
      && u.resetPasswordToken == was.resetPasswordToken && u.resetPasswordExpires == was.resetPasswordExpires
  {
    if caller !in db.users then (Err(NotFound), db)
    else
      var was := db.users[caller];
      var renames := patch.username != "" && patch.username != was.username;
      var remails := patch.email != "" && patch.email != was.email;
      if renames && UsernameHeld(db.users, patch.username) then (Err(UsernameTaken), db)
      else if remails && EmailHeld(db.users, patch.email) then (Err(EmailInUse), db)
      else
        var u := was.(
          username := if renames then patch.username else was.username,
          email := if remails then patch.email else was.email,
          phone := if patch.phone.Some? then patch.phone.value else was.phone,
          city := if patch.city.Some? then patch.city.value else was.city);
        (Ok(u), db.(users := db.users[caller := u]))
  }

  // ---------------------------------------------------------------------------
  // Lemmas

  /** A profile update keeps usernames and emails unique. */
  lemma UpdateProfileKeepsUnique(db: Db, caller: UserId, patch: ProfilePatch)
    requires UniqueAccounts(db.users)
    ensures UniqueAccounts(UpdateProfile(db, caller, patch).1.users)
    ensures UpdateProfile(db, caller, patch).1.nextId == db.nextId
    ensures UpdateProfile(db, caller, patch).1.users.Keys == db.users.Keys
  {
    var (res, db') := UpdateProfile(db, caller, patch);
    if res.Ok? {
      var u := res.value;
      forall i, j | i in db'.users && j in db'.users && i != j
        ensures db'.users[i].username != db'.users[j].username && db'.users[i].email != db'.users[j].email
      {
        if i == caller {
          assert u.username != db.users[j].username by {
            if u.username != db.users[caller].username {
              assert !UsernameHeld(db.users, u.username);
            }
          }
          assert u.email != db.users[j].email by {
            if u.email != db.users[caller].email {
              assert !EmailHeld(db.users, u.email);
            }
          }
        } else if j == caller {
          assert u.username != db.users[i].username by {
            if u.username != db.users[caller].username {
              assert !UsernameHeld(db.users, u.username);
            }
          }
          assert u.email != db.users[i].email by {
            if u.email != db.users[caller].email {
              assert !EmailHeld(db.users, u.email);
            }
          }
        }
      }
    }
  }

  /** Registration keeps usernames and emails unique, and account ids allocated. */
  lemma RegisterKeepsUnique(db: Db, username: string, email: string, password: string,
                            role: string, adminSecret: Option<string>, configured: string)
    requires UniqueAccounts(db.users) && IdsAllocated(db)
    ensures UniqueAccounts(Register(db, username, email, password, role, adminSecret, configured).1.users)
    ensures IdsAllocated(Register(db, username, email, password, role, adminSecret, configured).1)
  {
    var (res, db') := Register(db, username, email, password, role, adminSecret, configured);
    if res.Ok? {
      assert db.nextId !in db.users;
    }
  }

  /** Replacing an account by one with the same username and email keeps accounts unique. */
  lemma SameLoginKeepsUnique(users: map<UserId, User>, k: UserId, u: User)
    requires UniqueAccounts(users) && k in users
    requires u.username == users[k].username && u.email == users[k].email
    ensures UniqueAccounts(users[k := u])
  {
  }

  /** A request that succeeded cannot be repeated: the second one finds it pending and changes nothing. */
  lemma {:induction false} RequestTwiceFails(db: Db, caller: UserId)
    requires RequestOrganizerRole(db, caller).0.Done?
    ensures var db' := RequestOrganizerRole(db, caller).1;
      RequestOrganizerRole(db', caller) == (Fail(AlreadyPending), db')
  {
    var db' := RequestOrganizerRole(db, caller).1;
    assert db'.users[caller].organizerRequestStatus == Pending;
    assert db'.users[caller].role == db.users[caller].role;
  }

  /** After an approval the account is an organiser and can no longer ask, whatever it asked before. */
  lemma {:induction false} ApprovedCannotRequest(db: Db, userId: UserId)
    requires userId in db.users
    ensures var db' := ApproveOrganizerRequest(db, userId).1;
      RequestOrganizerRole(db', userId) == (Fail(AlreadyOrganizer), db')
  {
    var db' := ApproveOrganizerRequest(db, userId).1;
    assert db'.users[userId].role == RoleOrganizer;
  }

  /** After a rejection an ordinary user may ask again, and the request is pending once more. */
  lemma {:induction false} RejectedMayRequestAgain(db: Db, userId: UserId)
    requires userId in db.users
    requires db.users[userId].role != RoleOrganizer && db.users[userId].role != RoleAdmin
    ensures var db' := RejectOrganizerRequest(db, userId).1;
      && RequestOrganizerRole(db', userId).0 == Done
      && RequestOrganizerRole(db', userId).1.users[userId].organizerRequestStatus == Pending
      && RequestOrganizerRole(db', userId).1.users[userId].role == db.users[userId].role
  {
    var db' := RejectOrganizerRequest(db, userId).1;
    assert db'.users[userId].organizerRequestStatus == Rejected;
    assert db'.users[userId].role == db.users[userId].role;
  }

  /** A freshly registered plain user may ask to become an organiser. */
  lemma {:induction false} NewUserMayRequest(db: Db, username: string, email: string, password: string, configured: string)
    requires !UsernameHeld(db.users, username) && !EmailHeld(db.users, email)
    ensures var (res, db') := Register(db, username, email, password, "", None, configured);
      && res.Ok?
      && RequestOrganizerRole(db', res.value).0 == Done
      && RequestOrganizerRole(db', res.value).1.users[res.value].role == RoleUser
  {
    var (res, db') := Register(db, username, email, password, "", None, configured);
    assert db'.users[res.value].role == RoleUser;
  }

  /** An administrator account exists only where the configured secret was given. */
  lemma {:induction false} AdminNeedsSecret(db: Db, username: string, email: string, password: string,
                                            adminSecret: Option<string>, configured: string)
    requires Register(db, username, email, password, RoleAdmin, adminSecret, configured).0.Ok?
    ensures adminSecret == Some(AdminSecret(configured))
    ensures configured == "" ==> adminSecret == Some("admin123")
  {
    assert RegisterRole(RoleAdmin, adminSecret, configured).Ok?;
  }

  /**
   * A reset within the hour after a forgot-password request succeeds on the
   * account that asked, provided no other account holds the same token.
   */
  lemma {:induction false} ForgotThenReset(db: Db, email: string, tokenHash: string, asked: int,
                                           now: int, password: string)
    requires ForgotPassword(db, email, tokenHash, asked).0.Ok?
    requires forall k | k in db.users :: db.users[k].resetPasswordToken != Some(tokenHash)
    requires asked <= now < asked + ResetWindow
    ensures var (res, db1) := ForgotPassword(db, email, tokenHash, asked);
      && ResetPassword(db1, tokenHash, password, now).0 == Done
      && ResetPassword(db1, tokenHash, password, now).1.users[res.value].password == password
  {
    var (res, db1) := ForgotPassword(db, email, tokenHash, asked);
    var k := res.value;
    assert k < db.nextId by {
      assert AccountWithEmail(db, email) == Some(k);
    }
    assert ResetMatches(db1.users[k], tokenHash, now);
    var (out, db2) := ResetPassword(db1, tokenHash, password, now);
    assert out == Done;
    var j :| j in db1.users && ResetMatches(db1.users[j], tokenHash, now)
             && db2 == db1.(users := db1.users[j := db1.users[j].(password := password,
                                                               resetPasswordToken := None,
                                                               resetPasswordExpires := None)]);
    assert j == k;
  }

  /** When two accounts hold the same unexpired token, the reset leaves the later one untouched. */
  lemma {:induction false} ResetSparesLaterHolder(db: Db, tokenHash: string, password: string, now: int, i: UserId, j: UserId)
    requires i < j < db.nextId && i in db.users && j in db.users
    requires ResetMatches(db.users[i], tokenHash, now) && ResetMatches(db.users[j], tokenHash, now)
    ensures ResetPassword(db, tokenHash, password, now).0 == Done
    ensures ResetPassword(db, tokenHash, password, now).1.users[j] == db.users[j]
  {
    var k := AccountWithToken(db, tokenHash, now).value;
    assert k <= i;
  }

  /** A reset token works once: when only one account held it, a second reset with it fails. */
  lemma {:induction false} ResetIsSingleUse(db: Db, tokenHash: string, password: string, now: int,
                                            password': string, later: int)
    requires now <= later
    requires forall i, j | i in db.users && j in db.users
               && db.users[i].resetPasswordToken == Some(tokenHash)
               && db.users[j].resetPasswordToken == Some(tokenHash) :: i == j
    ensures var db' := ResetPassword(db, tokenHash, password, now).1;
      ResetPassword(db', tokenHash, password', later).0 == Fail(InvalidOrExpiredToken)
  {
    var (out, db') := ResetPassword(db, tokenHash, password, now);
    if out.Done? {
      var k :| k in db.users && ResetMatches(db.users[k], tokenHash, now)
               && db' == db.(users := db.users[k := db.users[k].(password := password,
                                                               resetPasswordToken := None,
                                                               resetPasswordExpires := None)]);
      forall j | j < db'.nextId && j in db'.users ensures !ResetMatches(db'.users[j], tokenHash, later) {
        if j != k {
          assert db'.users[j] == db.users[j];
          assert db.users[j].resetPasswordToken != Some(tokenHash);
        }
      }
    }
  }
}
