/**
 * The user collection: the queries the account and profile handlers run on it, and the
 * invariant the handlers keep.
 */
module Users {
  import opened Wrappers
  import opened Ids
  import opened UserModel
  import opened Text

  /** `findById(id)`. */
  function FindUser(users: seq<User>, id: Id): (r: Option<nat>)
    ensures r.Some? ==> r.value < |users| && users[r.value].id == id
    ensures r.None? ==> forall j :: 0 <= j < |users| ==> users[j].id != id
  {
    if |users| == 0 then None
    else if users[0].id == id then Some(0)
    else match FindUser(users[1..], id)
      case None => None
      case Some(i) => Some(i + 1)
  }

  /** `findOne({ email })`. */
  function FindByEmail(users: seq<User>, email: string): (r: Option<nat>)
    ensures r.Some? ==> r.value < |users| && users[r.value].email == email
    ensures r.None? ==> forall j :: 0 <= j < |users| ==> users[j].email != email
  {
    if |users| == 0 then None
    else if users[0].email == email then Some(0)
    else match FindByEmail(users[1..], email)
      case None => None
      case Some(i) => Some(i + 1)
  }

  /** `findOne({ roll })`, or `findOne({ roll, isVerified: true })` when `verifiedOnly`. */
  function FindByRoll(users: seq<User>, roll: string, verifiedOnly: bool): (r: Option<nat>)
    ensures r.Some? ==> r.value < |users| && users[r.value].roll == roll
                        && (verifiedOnly ==> users[r.value].isVerified)
    ensures r.None? ==> forall j :: 0 <= j < |users| ==>
                          users[j].roll != roll || (verifiedOnly && !users[j].isVerified)
  {
    if |users| == 0 then None
    else if users[0].roll == roll && (!verifiedOnly || users[0].isVerified) then Some(0)
    else match FindByRoll(users[1..], roll, verifiedOnly)
      case None => None
      case Some(i) => Some(i + 1)
  }

  /**
   * Generated ObjectIds used once, documents that passed validation, and one account per
   * address (the account handlers never create a second user for a stored address).
   */
  ghost predicate AccountsValid(users: seq<User>)
  {
    (forall i, j :: 0 <= i < j < |users| ==> users[i].id != users[j].id && users[i].email != users[j].email)
    && forall k :: 0 <= k < |users| ==> ValidObjectId(users[k].id) && UserValid(users[k])
  }

  /**
   * An id the ObjectId generator may hand out next: never used before, so no stored account
   * has it and no follow list mentions it (`deleteUser` leaves a deleted id in other users'
   * lists, so the second part does not follow from the first).
   */
  predicate FreshUserId(users: seq<User>, id: Id)
  {
    ValidObjectId(id)
    && forall k :: 0 <= k < |users| ==> users[k].id != id && id !in users[k].followers && id !in users[k].following
  }

  /**
   * `followers` of every user lists exactly the users whose `following` lists that user: the
   * two lists follow and unfollow keep mirrored.
   */
  ghost predicate FollowMirror(users: seq<User>)
  {
    forall a, b :: 0 <= a < |users| && 0 <= b < |users| ==>
      (users[b].id in users[a].followers <==> users[a].id in users[b].following)
  }

  /** Saving an account with the same id and follow lists keeps the lists mirrored. */
  lemma ReplaceKeepsMirror(users: seq<User>, i: nat, u: User)
    requires FollowMirror(users) && i < |users|
    requires u.id == users[i].id && u.followers == users[i].followers && u.following == users[i].following
    ensures FollowMirror(users[i := u])
  {
    var r := users[i := u];
    forall a, b | 0 <= a < |r| && 0 <= b < |r|
      ensures r[b].id in r[a].followers <==> r[a].id in r[b].following
    {
      assert r[a].id == users[a].id && r[a].followers == users[a].followers && r[a].following == users[a].following;
      assert r[b].id == users[b].id && r[b].followers == users[b].followers && r[b].following == users[b].following;
    }
  }

  /** Appending an account with a fresh id and empty follow lists keeps the lists mirrored. */
  lemma AppendKeepsMirror(users: seq<User>, u: User)
    requires FollowMirror(users) && FreshUserId(users, u.id) && u.followers == [] && u.following == []
    ensures FollowMirror(users + [u])
  {
    var r := users + [u];
    forall a, b | 0 <= a < |r| && 0 <= b < |r|
      ensures r[b].id in r[a].followers <==> r[a].id in r[b].following
    {
      if a < |users| && b < |users| {
        assert r[a] == users[a] && r[b] == users[b];
      } else if a < |users| {
        assert r[a] == users[a] && r[b] == u;
      } else if b < |users| {
        assert r[b] == users[b] && r[a] == u;
      }
    }
  }

  /** Deleting an account keeps the remaining accounts' lists mirrored. */
  lemma RemoveKeepsMirror(users: seq<User>, i: nat)
    requires FollowMirror(users) && i < |users|
    ensures FollowMirror(users[..i] + users[i + 1..])
  {
    var r := users[..i] + users[i + 1..];
    forall a, b | 0 <= a < |r| && 0 <= b < |r|
      ensures r[b].id in r[a].followers <==> r[a].id in r[b].following
    {
      assert r[a] == users[if a < i then a else a + 1];
      assert r[b] == users[if b < i then b else b + 1];
    }
  }

  /** Changing one account in place keeps the invariant when its id and address stay. */
  lemma ReplaceKeepsAccounts(users: seq<User>, i: nat, u: User)
    requires AccountsValid(users) && i < |users|
    requires u.id == users[i].id && u.email == users[i].email && UserValid(u)
    ensures AccountsValid(users[i := u])
  {
  }

  /** Appending a valid account with a fresh id and a new address keeps the invariant. */
  lemma AppendKeepsAccounts(users: seq<User>, u: User)
    requires AccountsValid(users) && FreshUserId(users, u.id) && UserValid(u)
    requires forall k :: 0 <= k < |users| ==> users[k].email != u.email
    ensures AccountsValid(users + [u])
  {
    var r := users + [u];
    forall i, j | 0 <= i < j < |r| ensures r[i].id != r[j].id && r[i].email != r[j].email {
      assert r[i] == users[i];
    }
  }

  /**
   * With the invariant, the account holding roll `roll` is the account holding the address
   * `roll` + Domain: a roll lookup finds what the address lookup finds.
   */
  lemma {:induction false} RollLookupIsEmailLookup(users: seq<User>, email: string, roll: string, verifiedOnly: bool)
    requires AccountsValid(users)
    requires IsRuetEmail(email) && BeforeAt(email) == roll
    ensures FindByRoll(users, roll, verifiedOnly).Some? ==>
              FindByEmail(users, email) == FindByRoll(users, roll, verifiedOnly)
  {
    RollFollowsEmail(email, roll);
    match FindByRoll(users, roll, verifiedOnly)
    case None =>
    case Some(k) =>
      var u := users[k];
      EmailIsRollAtDomain(u.email);
      assert u.email == email;
      match FindByEmail(users, email)
      case None =>
      case Some(j) =>
        assert users[j].email == users[k].email;
  }
}
