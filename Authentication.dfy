/**
 * Email/password login: find the user by email, check the password against
 * the stored hash, and on success issue a personal access token named after
 * the caller's device. Both failure causes give one and the same 422 answer,
 * and a failed attempt writes nothing to the token store.
 */
module Authentication {
  import opened Wrappers

  /** One byte of a raw header value. */
  type Byte = b: int | 0 <= b < 256

  datatype User = User(id: nat, email: string, passwordHash: string)

  /** The login request: the validated body and the User-Agent header, if one was sent. */
  datatype LoginRequest = LoginRequest(email: string, password: string, userAgent: Option<seq<Byte>>)

  /** The password hasher's check of a plain password against a stored hash. */
  type HashCheck = (string, string) -> bool

  /** The longest device name kept from the User-Agent header, in bytes. */
  const DeviceNameLimit: nat := 255

  const InvalidCredentialsMessage: string := "The provided credentials are incorrect"

  /** Emails identify users: no two stored users share one. */
  ghost predicate UniqueEmails(users: seq<User>)
  {
    forall i, j :: 0 <= i < j < |users| ==> users[i].email != users[j].email
  }

  /** `User::where('email', ...)->first()`: the first stored user with that email. */
  function FirstWithEmail(users: seq<User>, email: string): (r: Option<User>)
    ensures r.None? <==> forall u :: u in users ==> u.email != email
    ensures r.Some? ==> r.value in users && r.value.email == email
  {
    if users == [] then None
    else if users[0].email == email then Some(users[0])
    else FirstWithEmail(users[1..], email)
  }

  /** With unique emails, the lookup finds the one user who has the email. */
  lemma {:induction false} FirstWithEmailFindsTheOwner(users: seq<User>, email: string, u: User)
    requires UniqueEmails(users)
    requires u in users && u.email == email
    ensures FirstWithEmail(users, email) == Some(u)
  {
    var k :| 0 <= k < |users| && users[k] == u;
    if k > 0 {
      assert users[0].email != users[k].email;
      assert u in users[1..];
      assert UniqueEmails(users[1..]) by {
        forall i, j | 0 <= i < j < |users[1..]| ensures users[1..][i].email != users[1..][j].email {
          assert users[1..][i] == users[i + 1] && users[1..][j] == users[j + 1];
        }
      }
      FirstWithEmailFindsTheOwner(users[1..], email, u);
    }
  }

  /** The device name: the User-Agent cut to its first 255 bytes, or empty when there is none. */
  function DeviceName(userAgent: Option<seq<Byte>>): (name: seq<Byte>)
    ensures |name| <= DeviceNameLimit
    ensures userAgent.None? ==> name == []
    ensures userAgent.Some? ==> name <= userAgent.value
    ensures userAgent.Some? && |userAgent.value| <= DeviceNameLimit ==> name == userAgent.value
    ensures userAgent.Some? && |userAgent.value| > DeviceNameLimit ==> |name| == DeviceNameLimit
  {
    var agent := if userAgent.Some? then userAgent.value else [];
    if |agent| <= DeviceNameLimit then agent else agent[..DeviceNameLimit]
  }

  /** What a successful check grants: the user and the name of the token to issue. */
  datatype Grant = Grant(user: User, deviceName: seq<Byte>)

  datatype LoginError = InvalidCredentials

  /** The credential decision: the found user with a matching password, or the one shared error. */
  function Authenticate(users: seq<User>, req: LoginRequest, hashCheck: HashCheck): (r: Result<Grant, LoginError>)
    ensures r.Success? ==> r.value.user in users && r.value.user.email == req.email
    ensures r.Success? ==> hashCheck(req.password, r.value.user.passwordHash)
    ensures r.Success? ==> r.value.deviceName == DeviceName(req.userAgent)
  {
    match FirstWithEmail(users, req.email)
    case None => Failure(InvalidCredentials)
    case Some(user) =>
      if !hashCheck(req.password, user.passwordHash) then Failure(InvalidCredentials)
      else Success(Grant(user, DeviceName(req.userAgent)))
  }

  /** The token handed to the client: the stored token's id and its secret ("<id>|<secret>"). */
  datatype PlainTextToken = PlainTextToken(tokenId: nat, secret: string)

  datatype LoginResponse = Unprocessable(error: string) | Issued(accessToken: PlainTextToken)

  function StatusCode(r: LoginResponse): nat
  {
    match r
    case Unprocessable(_) => 422
    case Issued(_) => 200
  }

  /** The JSON answer to a decision: the credentials error, or the token issued under `tokenId`. */
  function Respond(decision: Result<Grant, LoginError>, tokenId: nat, secret: string): LoginResponse
  {
    match decision
    case Failure(_) => Unprocessable(InvalidCredentialsMessage)
    case Success(_) => Issued(PlainTextToken(tokenId, secret))
  }

  /** A row of the personal access token table. */
  datatype PersonalAccessToken = PersonalAccessToken(id: nat, userId: nat, name: seq<Byte>, secret: string)

  /** The persistent token table that login writes to. */
  class TokenStore {
    var tokens: seq<PersonalAccessToken>

    /** Token ids are assigned in insertion order, starting at 1. */
    ghost predicate Valid()
      reads this
    {
      forall i :: 0 <= i < |tokens| ==> tokens[i].id == i + 1
    }

    constructor ()
      ensures Valid() && tokens == []
    {
      tokens := [];
    }

    /** `createToken`: stores a new token for `user` named `name` and returns its plain-text form. */
    method CreateToken(user: User, name: seq<Byte>, secret: string) returns (plain: PlainTextToken)
      requires Valid()
      modifies this
      ensures Valid()
      ensures tokens == old(tokens) + [PersonalAccessToken(|old(tokens)| + 1, user.id, name, secret)]
      ensures plain == PlainTextToken(|old(tokens)| + 1, secret)
      ensures forall i :: 0 <= i < |old(tokens)| ==> old(tokens)[i].id != plain.tokenId
    {
      var id := |tokens| + 1;
      tokens := tokens + [PersonalAccessToken(id, user.id, name, secret)];
      plain := PlainTextToken(id, secret);
    }

    /**
     * The login endpoint. `secret` is the random part of the new token.
     * A rejected attempt answers 422 and leaves the store as it was; an
     * accepted one adds exactly one token, bound to the user and the device.
     */
    method Login(users: seq<User>, req: LoginRequest, hashCheck: HashCheck, secret: string) returns (r: LoginResponse)
      requires Valid()
      modifies this
      ensures Valid()
      ensures r == Respond(Authenticate(users, req, hashCheck), |old(tokens)| + 1, secret)
      ensures Authenticate(users, req, hashCheck).Failure? ==> tokens == old(tokens)
      ensures Authenticate(users, req, hashCheck).Success? ==>
        var grant := Authenticate(users, req, hashCheck).value;
        tokens == old(tokens) + [PersonalAccessToken(|old(tokens)| + 1, grant.user.id, grant.deviceName, secret)]
    {
      var decision := Authenticate(users, req, hashCheck);
      if decision.Failure? {
        return Unprocessable(InvalidCredentialsMessage);
      }
      var plain := CreateToken(decision.value.user, decision.value.deviceName, secret);
      r := Issued(plain);
    }
  }

  // Properties of the credential decision.

  /** With unique emails, login succeeds exactly when some user has that email and the password checks. */
  lemma SucceedsIffCredentialsMatch(users: seq<User>, req: LoginRequest, hashCheck: HashCheck)
    requires UniqueEmails(users)
    ensures Authenticate(users, req, hashCheck).Success? <==>
      exists u :: u in users && u.email == req.email && hashCheck(req.password, u.passwordHash)
  {
    if u :| u in users && u.email == req.email && hashCheck(req.password, u.passwordHash) {
      FirstWithEmailFindsTheOwner(users, req.email, u);
    }
  }

  /** An email no user has is rejected with the credentials error. */
  lemma UnknownEmailIsRejected(users: seq<User>, req: LoginRequest, hashCheck: HashCheck)
    requires forall u :: u in users ==> u.email != req.email
    ensures Authenticate(users, req, hashCheck) == Failure(InvalidCredentials)
  {
  }

  /** A known email with a password that does not check is rejected with the same error. */
  lemma WrongPasswordIsRejected(users: seq<User>, req: LoginRequest, hashCheck: HashCheck, u: User)
    requires UniqueEmails(users)
    requires u in users && u.email == req.email && !hashCheck(req.password, u.passwordHash)
    ensures Authenticate(users, req, hashCheck) == Failure(InvalidCredentials)
  {
    FirstWithEmailFindsTheOwner(users, req.email, u);
  }

  /** The answer is 200 exactly when some user has that email and the password checks; otherwise 422. */
  lemma StatusFollowsCredentials(users: seq<User>, req: LoginRequest, hashCheck: HashCheck,
                                 tokenId: nat, secret: string)
    requires UniqueEmails(users)
    ensures var status := StatusCode(Respond(Authenticate(users, req, hashCheck), tokenId, secret));
      (status == 200 <==> exists u :: u in users && u.email == req.email && hashCheck(req.password, u.passwordHash)) &&
      (status == 200 || status == 422)
  {
    SucceedsIffCredentialsMatch(users, req, hashCheck);
  }

  /**
   * An unknown email and a wrong password for a known one get the very same
   * answer, whatever token id and secret the store would have used.
   */
  lemma RejectionsAreIndistinguishable(usersA: seq<User>, reqA: LoginRequest, usersB: seq<User>, reqB: LoginRequest,
                                       hashCheck: HashCheck, u: User, idA: nat, idB: nat, secretA: string, secretB: string)
    requires forall v :: v in usersA ==> v.email != reqA.email
    requires UniqueEmails(usersB)
    requires u in usersB && u.email == reqB.email && !hashCheck(reqB.password, u.passwordHash)
    ensures Respond(Authenticate(usersA, reqA, hashCheck), idA, secretA) ==
            Respond(Authenticate(usersB, reqB, hashCheck), idB, secretB)
    ensures StatusCode(Respond(Authenticate(usersA, reqA, hashCheck), idA, secretA)) == 422
  {
    UnknownEmailIsRejected(usersA, reqA, hashCheck);
    WrongPasswordIsRejected(usersB, reqB, hashCheck, u);
  }
}
