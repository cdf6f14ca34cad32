/**
 * The account handlers of server/Controllers/AuthController.js: pre-registration with an
 * e-mailed code, verification, resending the code, the older direct registration, and login.
 * The generated code, whether the e-mail went out, and the clock are parameters.
 */
module AuthController {
  import opened Wrappers
  import opened Ids
  import opened Text
  import opened UserModel
  import opened Users
  import opened Db

  /** The fields of the request body the handlers read. */
  datatype Form = Form(email: string, roll: string, password: string,
                       firstname: string, lastname: string, department: string)

  datatype FormError = BadEmail | RollMismatch | MissingField

  /**
   * The three guards `preRegisterUser` and `registerUser` open with, in their order: the
   * address pattern, the prefix against `roll`, then `!roll || !department`.
   */
  function CheckForm(f: Form): (r: Option<FormError>)
    ensures r.None? <==> IsRuetEmail(f.email) && BeforeAt(f.email) == f.roll && f.department != ""
    ensures r == Some(MissingField) ==> f.department == "" && IsNumeral(f.roll)
  {
    if !IsRuetEmail(f.email) then Some(BadEmail)
    else if BeforeAt(f.email) != f.roll then Some(RollMismatch)
    else
      RollFollowsEmail(f.email, f.roll);
      if f.roll == "" || f.department == "" then Some(MissingField)
      else None
  }

  /** A well-formed address with an empty roll is reported as a mismatch, never as missing. */
  lemma EmptyRollIsMismatch(f: Form)
    requires IsRuetEmail(f.email) && f.roll == ""
    ensures CheckForm(f) == Some(RollMismatch)
  {
    EmailIsRollAtDomain(f.email);
  }

  /** A fresh code and its expiry, thirty minutes after `now`. */
  function Issued(u: User, code: string, now: nat): (r: User)
    ensures r.verificationCode == Some(code) && r.verificationCodeExpires == Some(now + CodeLifetime)
    ensures r.(verificationCode := u.verificationCode, verificationCodeExpires := u.verificationCodeExpires) == u
  {
    u.(verificationCode := Some(code), verificationCodeExpires := Some(now + CodeLifetime))
  }

  /** What `verifyEmail` answers for a stored user: expiry first, then the code. */
  function VerifyStatus(u: User, code: Option<string>, now: nat): nat
  {
    if CodeExpired(u, now) then 400
    else if u.verificationCode != code then 400
    else 200
  }

  /** An issued code verifies exactly until thirty minutes have passed. */
  lemma IssuedCodeWindow(u: User, code: string, issuedAt: nat, now: nat)
    ensures VerifyStatus(Issued(u, code, issuedAt), Some(code), now) == 200 <==> now <= issuedAt + CodeLifetime
  {
  }

  /** Only the code last issued can verify an account that has one. */
  lemma OnlyIssuedCodeVerifies(u: User, code: string, issuedAt: nat, other: Option<string>, now: nat)
    requires other != Some(code)
    ensures VerifyStatus(Issued(u, code, issuedAt), other, now) == 400
  {
  }

  /** The account `preRegisterUser` refreshes: a new code, the new password, names and department. */
  function Refreshed(u: User, f: Form, code: string, now: nat): User
  {
    Issued(u, code, now).(password := Hash(f.password), firstname := f.firstname, lastname := f.lastname,
                          department := f.department, roll := f.roll)
  }

  /** A verified account owns the address. */
  predicate VerifiedOwner(users: seq<User>, email: string)
  {
    FindByEmail(users, email).Some? && users[FindByEmail(users, email).value].isVerified
  }

  /** The document `preRegisterUser` saves: the existing unverified account, or a new one. */
  function PreRegisterCandidate(users: seq<User>, f: Form, code: string, freshId: Id, now: nat): User
  {
    match FindByEmail(users, f.email)
    case Some(i) => Refreshed(users[i], f, code, now)
    case None =>
      NewUser(freshId, f.email, f.roll, Hash(f.password), f.firstname, f.lastname, f.department,
              false, Some(code), Some(now + CodeLifetime))
  }

  /** The collection after that document is saved. */
  function PreRegisterStored(users: seq<User>, f: Form, code: string, freshId: Id, now: nat): seq<User>
  {
    var c := PreRegisterCandidate(users, f, code, freshId, now);
    match FindByEmail(users, f.email)
    case Some(i) => users[i := c]
    case None => users + [c]
  }

  /** Saving the candidate keeps the accounts valid and the follow lists mirrored. */
  lemma PreRegisterKeepsInvariants(users: seq<User>, f: Form, code: string, freshId: Id, now: nat)
    requires AccountsValid(users) && FollowMirror(users) && FreshUserId(users, freshId)
    requires UserValid(PreRegisterCandidate(users, f, code, freshId, now))
    ensures AccountsValid(PreRegisterStored(users, f, code, freshId, now))
    ensures FollowMirror(PreRegisterStored(users, f, code, freshId, now))
  {
    var c := PreRegisterCandidate(users, f, code, freshId, now);
    match FindByEmail(users, f.email)
    case Some(i) =>
      ReplaceKeepsAccounts(users, i, c);
      ReplaceKeepsMirror(users, i, c);
    case None =>
      AppendKeepsAccounts(users, c);
      AppendKeepsMirror(users, c);
  }

  /**
   * `preRegisterUser`: the form guards, a verified owner of the address, a verified owner of
   * the roll, then validation of the saved document. A failed e-mail send answers 500 after
   * the save.
   */
  method PreRegister(db: Database, f: Form, code: string, freshId: Id, now: nat, emailSent: bool)
    returns (status: nat, userId: Option<Id>)
    requires AccountsValid(db.users) && FollowMirror(db.users) && FreshUserId(db.users, freshId)
    modifies db`users
    ensures AccountsValid(db.users) && FollowMirror(db.users)
    ensures var candidate := PreRegisterCandidate(old(db.users), f, code, freshId, now);
            if CheckForm(f).Some? || VerifiedOwner(old(db.users), f.email)
               || FindByRoll(old(db.users), f.roll, true).Some? || !UserValid(candidate) then
              status == 400 && db.users == old(db.users) && userId.None?
            else
              db.users == PreRegisterStored(old(db.users), f, code, freshId, now)
              && status == (if emailSent then 200 else 500)
              && userId == (if emailSent then Some(candidate.id) else None)
    ensures forall k :: 0 <= k < |old(db.users)| && old(db.users)[k].isVerified ==> db.users[k] == old(db.users)[k]
  {
    if !IsRuetEmail(f.email) {
      return 400, None;
    }
    if BeforeAt(f.email) != f.roll {
      return 400, None;
    }
    if f.roll == "" || f.department == "" {
      return 400, None;
    }
    var oldUser := FindByEmail(db.users, f.email);
    if oldUser.Some? && db.users[oldUser.value].isVerified {
      return 400, None;
    }
    var withRoll := FindByRoll(db.users, f.roll, true);
    if withRoll.Some? {
      return 400, None;
    }
    var candidate := PreRegisterCandidate(db.users, f, code, freshId, now);
    if !UserValid(candidate) {
      return 400, None;
    }
    PreRegisterKeepsInvariants(db.users, f, code, freshId, now);
    if oldUser.Some? {
      db.users := db.users[oldUser.value := candidate];
    } else {
      db.users := db.users + [candidate];
    }
    if !emailSent {
      return 500, None;
    }
    return 200, Some(candidate.id);
  }

  /** `verifyEmail`: 500 for an id that does not cast, 404 when missing, else `VerifyStatus`. */
  method VerifyEmail(db: Database, userId: Id, code: Option<string>, now: nat) returns (status: nat)
    requires AccountsValid(db.users) && FollowMirror(db.users)
    modifies db`users
    ensures AccountsValid(db.users) && FollowMirror(db.users)
    ensures !ValidObjectId(userId) ==> status == 500
    ensures ValidObjectId(userId) && FindUser(old(db.users), userId).None? ==> status == 404
    ensures ValidObjectId(userId) && FindUser(old(db.users), userId).Some? ==>
              var i := FindUser(old(db.users), userId).value;
              var u := old(db.users)[i];
              status == VerifyStatus(u, code, now)
              && (status == 200 ==>
                    db.users == old(db.users)[i := u.(isVerified := true, verificationCode := None,
                                                      verificationCodeExpires := None)])
    ensures status != 200 ==> db.users == old(db.users)
  {
    if !ValidObjectId(userId) {
      return 500;
    }
    var found := FindUser(db.users, userId);
    if found.None? {
      return 404;
    }
    var i := found.value;
    var user := db.users[i];
    if CodeExpired(user, now) {
      return 400;
    }
    if user.verificationCode != code {
      return 400;
    }
    user := user.(isVerified := true, verificationCode := None, verificationCodeExpires := None);
    ReplaceKeepsAccounts(db.users, i, user);
    ReplaceKeepsMirror(db.users, i, user);
    db.users := db.users[i := user];
    return 200;
  }

  /** `resendVerificationCode`: 404 when missing, 400 once verified, else a new code. */
  method ResendVerificationCode(db: Database, userId: Id, code: string, now: nat, emailSent: bool)
    returns (status: nat)
    requires AccountsValid(db.users) && FollowMirror(db.users)
    modifies db`users
    ensures AccountsValid(db.users) && FollowMirror(db.users)
    ensures !ValidObjectId(userId) ==> status == 500 && db.users == old(db.users)
    ensures ValidObjectId(userId) && FindUser(old(db.users), userId).None? ==>
              status == 404 && db.users == old(db.users)
    ensures ValidObjectId(userId) && FindUser(old(db.users), userId).Some? ==>
              var i := FindUser(old(db.users), userId).value;
              if old(db.users)[i].isVerified then status == 400 && db.users == old(db.users)
              else db.users == old(db.users)[i := Issued(old(db.users)[i], code, now)]
                   && status == (if emailSent then 200 else 500)
  {
    if !ValidObjectId(userId) {
      return 500;
    }
    var found := FindUser(db.users, userId);
    if found.None? {
      return 404;
    }
    var i := found.value;
    if db.users[i].isVerified {
      return 400;
    }
    var user := Issued(db.users[i], code, now);
    ReplaceKeepsAccounts(db.users, i, user);
    ReplaceKeepsMirror(db.users, i, user);
    db.users := db.users[i := user];
    if !emailSent {
      return 500;
    }
    return 200;
  }

  /** The document `registerUser` saves: hashed password, unverified, no code. */
  function Registered(freshId: Id, f: Form): (u: User)
    ensures !u.isVerified && u.verificationCode.None? && u.password == Hash(f.password)
  {
    NewUser(freshId, f.email, f.roll, Hash(f.password), f.firstname, f.lastname, f.department,
            false, None, None)
  }

  /** `registerUser`: the form guards, then any existing owner of the address or the roll refuses. */
  method Register(db: Database, f: Form, freshId: Id) returns (status: nat)
    requires AccountsValid(db.users) && FollowMirror(db.users) && FreshUserId(db.users, freshId)
    modifies db`users
    ensures AccountsValid(db.users) && FollowMirror(db.users)
    ensures if CheckForm(f).Some? || FindByEmail(old(db.users), f.email).Some?
               || FindByRoll(old(db.users), f.roll, false).Some? || !UserValid(Registered(freshId, f)) then
              status == 400 && db.users == old(db.users)
            else
              status == 200 && db.users == old(db.users) + [Registered(freshId, f)]
  {
    if !IsRuetEmail(f.email) {
      return 400;
    }
    if BeforeAt(f.email) != f.roll {
      return 400;
    }
    if f.roll == "" || f.department == "" {
      return 400;
    }
    if FindByEmail(db.users, f.email).Some? {
      return 400;
    }
    if FindByRoll(db.users, f.roll, false).Some? {
      return 400;
    }
    var user := Registered(freshId, f);
    if !UserValid(user) {
      return 400;
    }
    AppendKeepsMirror(db.users, user);
    db.users := db.users + [user];
    return 200;
  }

  /**
   * With one account per address, the roll lookup of `preRegisterUser` never refuses a form
   * the address lookup let through: a verified holder of the roll owns the address.
   */
  lemma PreRegisterRollCheckRedundant(users: seq<User>, f: Form)
    requires AccountsValid(users) && CheckForm(f).None?
    ensures FindByRoll(users, f.roll, true).Some? ==> VerifiedOwner(users, f.email)
  {
    RollLookupIsEmailLookup(users, f.email, f.roll, true);
  }

  /** Likewise in `registerUser`: an account holding the roll holds the address. */
  lemma RegisterRollCheckRedundant(users: seq<User>, f: Form)
    requires AccountsValid(users) && CheckForm(f).None?
    ensures FindByRoll(users, f.roll, false).Some? ==> FindByEmail(users, f.email).Some?
  {
    RollLookupIsEmailLookup(users, f.email, f.roll, false);
  }

  /**
   * `loginUser`: 404 for an unknown address; an unverified account gets a new code and 403
   * before the password is looked at; then 400 for a wrong password.
   */
  method Login(db: Database, email: string, password: string, code: string, now: nat)
    returns (status: nat, requiresVerification: bool)
    requires AccountsValid(db.users) && FollowMirror(db.users)
    modifies db`users
    ensures AccountsValid(db.users) && FollowMirror(db.users)
    ensures FindByEmail(old(db.users), email).None? ==>
              status == 404 && !requiresVerification && db.users == old(db.users)
    ensures FindByEmail(old(db.users), email).Some? ==>
              var i := FindByEmail(old(db.users), email).value;
              var u := old(db.users)[i];
              if !u.isVerified then
                status == 403 && requiresVerification && db.users == old(db.users)[i := Issued(u, code, now)]
              else
                db.users == old(db.users) && !requiresVerification
                && status == (if Matches(password, u.password) then 200 else 400)
  {
    var found := FindByEmail(db.users, email);
    if found.None? {
      return 404, false;
    }
    var i := found.value;
    if !db.users[i].isVerified {
      var user := Issued(db.users[i], code, now);
      ReplaceKeepsAccounts(db.users, i, user);
      ReplaceKeepsMirror(db.users, i, user);
      db.users := db.users[i := user];
      return 403, true;
    }
    if !Matches(password, db.users[i].password) {
      return 400, false;
    }
    return 200, false;
  }
}
