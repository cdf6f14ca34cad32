/**
 * The user document of server/Models/userModel.js: its validators, the e-mail/roll consistency
 * check and its defaults. Passwords are stored only as digests.
 */
module UserModel {
  import opened Wrappers
  import opened Ids
  import opened Text

  /** The fixed tail of every accepted address. */
  const Domain: string := "@student.ruet.ac.bd"

  /** Thirty minutes in milliseconds: the lifetime of every verification code. */
  const CodeLifetime: nat := 30 * 60 * 1000

  /**
   * The result of `bcrypt.hash`. Salting and the hash function itself are not modelled: the
   * digest remembers what it was made from, and `Matches` plays `bcrypt.compare`.
   */
  datatype Digest = Digest(source: string)

  function Hash(password: string): Digest
  {
    Digest(password)
  }

  predicate Matches(password: string, d: Digest)
  {
    d.source == password
  }

  datatype User = User(
    id: Id,
    email: string,
    roll: string,
    password: Digest,
    firstname: string,
    lastname: string,
    department: string,
    isAdmin: bool,
    isVerified: bool,
    verificationCode: Option<string>,
    verificationCodeExpires: Option<nat>,
    followers: seq<Id>,
    following: seq<Id>)

  /** `/^[0-9]+@student\.ruet\.ac\.bd$/.test(e)`. */
  predicate IsRuetEmail(e: string)
  {
    |e| > |Domain| && e[|e| - |Domain|..] == Domain && IsNumeral(e[..|e| - |Domain|])
  }

  /** The schema's checks on one document, the ones `save()` runs. */
  predicate UserValid(u: User)
  {
    IsRuetEmail(u.email)
    && IsNumeral(u.roll)
    && u.firstname != "" && u.lastname != "" && u.department != ""
    && BeforeAt(u.email) == u.roll
  }

  /** A valid address is its roll number followed by the domain, and nothing else. */
  lemma EmailIsRollAtDomain(e: string)
    requires IsRuetEmail(e)
    ensures IsNumeral(BeforeAt(e))
    ensures e == BeforeAt(e) + Domain
  {
    var d := e[..|e| - |Domain|];
    assert e == d + Domain;
    BeforeAtDigits(d, Domain);
  }

  /**
   * Once the address has the right form and its prefix equals `roll`, the roll is a non-empty
   * numeral: of the guard `!roll || !department` only the department half can fire, and the
   * roll validator cannot fail.
   */
  lemma RollFollowsEmail(e: string, roll: string)
    requires IsRuetEmail(e) && BeforeAt(e) == roll
    ensures IsNumeral(roll) && e == roll + Domain
  {
    EmailIsRollAtDomain(e);
  }

  /** Two valid users with the same roll have the same address. */
  lemma SameRollSameEmail(u: User, v: User)
    requires UserValid(u) && UserValid(v) && u.roll == v.roll
    ensures u.email == v.email
  {
    EmailIsRollAtDomain(u.email);
    EmailIsRollAtDomain(v.email);
  }

  /** A new document with the schema defaults: not an admin, no followers, no following. */
  function NewUser(id: Id, email: string, roll: string, password: Digest, firstname: string,
                   lastname: string, department: string, isVerified: bool,
                   code: Option<string>, expires: Option<nat>): (u: User)
    ensures !u.isAdmin && u.followers == [] && u.following == []
  {
    User(id, email, roll, password, firstname, lastname, department, false, isVerified,
         code, expires, [], [])
  }

  /** `user.verificationCodeExpires < new Date()`: a null expiry compares as 0. */
  predicate CodeExpired(u: User, now: nat)
  {
    match u.verificationCodeExpires
    case None => 0 < now
    case Some(t) => t < now
  }

  /** The user as `select('-password')` returns it: every field but the password. */
  datatype PublicUser = PublicUser(
    id: Id, email: string, roll: string, firstname: string, lastname: string,
    department: string, isAdmin: bool, isVerified: bool, verificationCode: Option<string>,
    verificationCodeExpires: Option<nat>, followers: seq<Id>, following: seq<Id>)

  function Public(u: User): PublicUser
  {
    PublicUser(u.id, u.email, u.roll, u.firstname, u.lastname, u.department, u.isAdmin,
               u.isVerified, u.verificationCode, u.verificationCodeExpires, u.followers, u.following)
  }

  /** Two users look the same from outside exactly when they differ in the password at most. */
  lemma PublicHidesOnlyPassword(u: User, v: User)
    ensures Public(u) == Public(v) <==> v == u.(password := v.password)
  {
  }
}
