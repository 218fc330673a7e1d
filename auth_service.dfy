/** The authentication service of src/auth/auth.service.ts: password
    validation, token issue, and biometric login. */
module Auth {
  import opened Wrappers
  import opened Errors
  import opened Text
  import opened Crypto
  import opened Helper
  import opened Users

  const INVALID_LOGIN := "Invalid login credentials"
  const NO_PASSWORD := "User does not have a password"
  const INVALID_CREDENTIAL := "Invalid credential"
  const INTERNAL_MESSAGE := "Internal server exception!"

  /** What a token is signed over: the user's id and email, nothing else. */
  datatype Payload = Payload(id: nat, email: string)

  /** What `login` and `loginWithBiometric` return. */
  datatype LoginResponse = LoginResponse(token: string, user: User)

  /** The JWT signer with its configured secret: a token, or the reason it
      failed. */
  type Signer = Payload -> Result<string, string>

  /** `signPayload`: the signer's token unchanged, or, whatever made the signer
      fail, InternalServerError with one fixed message. */
  function SignPayload(payload: Payload, sign: Signer): (r: Result<string, Error>)
    ensures r.Ok? <==> sign(payload).Ok?
    ensures r.Ok? ==> r.value == sign(payload).value
    ensures r.Err? ==> r.error == InternalServerError(INTERNAL_MESSAGE)
  {
    match sign(payload)
    case Ok(token) => Ok(token)
    case Err(_) => Err(InternalServerError(INTERNAL_MESSAGE))
  }

  /** The signer's failure reason never reaches the caller: two signers that
      both fail give the same error. */
  lemma SignFailureHidesCause(payload: Payload, sign1: Signer, sign2: Signer)
    requires sign1(payload).Err? && sign2(payload).Err?
    ensures SignPayload(payload, sign1) == SignPayload(payload, sign2)
  {
  }

  /** `login`: signs exactly the user's id and email and returns the token
      with the user object as given. */
  function Login(user: User, sign: Signer): (r: Result<LoginResponse, Error>)
    ensures r.Ok? <==> sign(Payload(user.id, user.email)).Ok?
    ensures r.Ok? ==> r.value.user == user && r.value.token == sign(Payload(user.id, user.email)).value
    ensures r.Err? ==> r.error == InternalServerError(INTERNAL_MESSAGE)
  {
    match SignPayload(Payload(user.id, user.email), sign)
    case Ok(token) => Ok(LoginResponse(token, user))
    case Err(e) => Err(e)
  }

  /** `validateUser`: the record stored for the email, with its password
      removed, when the password verifies. An unknown email and a wrong
      password give the same error; a record without a password gives its
      own. */
  function ValidateUser(svc: UserService, email: string, password: string, b: Bcrypt): (r: Result<User, Error>)
    reads svc
    requires svc.Valid()
    ensures (forall i :: 0 <= i < |svc.users| ==> svc.users[i].email != email) ==>
      r == Err(BadRequest(INVALID_LOGIN))
    ensures forall i :: 0 <= i < |svc.users| && svc.users[i].email == email ==>
      var u := svc.users[i];
      if !Present(u.password) then r == Err(BadRequest(NO_PASSWORD))
      else if !b.compare(password, u.password.value) then r == Err(BadRequest(INVALID_LOGIN))
      else r == Ok(u.(password := None))
  {
    match svc.FindOneByEmail(email)
    case None => Err(BadRequest(INVALID_LOGIN))
    case Some(user) =>
      if !Present(user.password) then Err(BadRequest(NO_PASSWORD))
      else if !b.compare(password, user.password.value) then Err(BadRequest(INVALID_LOGIN))
      else Ok(user.(password := None))
  }

  /** When no record has the email, or the record has no password, `compare`
      is never consulted: any two bcrypt instances give the same result. */
  lemma ValidateUserSkipsCompare(svc: UserService, email: string, password: string, b1: Bcrypt, b2: Bcrypt)
    requires svc.Valid()
    requires forall i :: 0 <= i < |svc.users| && svc.users[i].email == email ==> !Present(svc.users[i].password)
    ensures ValidateUser(svc, email, password, b1) == ValidateUser(svc, email, password, b2)
  {
  }

  /** How many records the biometric scan visits: up to and including the
      first match, or all of them. */
  function ScanEnd(users: seq<User>, key: string, compare: (string, string) -> bool): (n: nat)
    ensures n <= |users|
  {
    match FirstUnlocking(users, key, compare)
    case None => |users|
    case Some(i) => i + 1
  }

  /** `loginWithBiometric`: scans every record in store order and logs in the
      first one holding a digest that the key verifies against. `compared`
      lists the records on which `compare` ran. */
  method LoginWithBiometric(svc: UserService, key: string, b: Bcrypt, sign: Signer)
    returns (r: Result<LoginResponse, Error>, ghost compared: seq<nat>)
    ensures FirstUnlocking(svc.users, key, b.compare).None? ==> r == Err(BadRequest(INVALID_CREDENTIAL))
    ensures FirstUnlocking(svc.users, key, b.compare).Some? ==>
      var i := FirstUnlocking(svc.users, key, b.compare).value;
      && i < |svc.users|
      && Unlocks(svc.users[i], key, b.compare)
      && (forall j :: 0 <= j < i ==> !Unlocks(svc.users[j], key, b.compare))
      && r == Login(svc.users[i], sign)
    ensures forall k :: 0 <= k < |compared| ==>
      compared[k] < ScanEnd(svc.users, key, b.compare) && Present(svc.users[compared[k]].biometricKey)
    ensures forall j :: 0 <= j < ScanEnd(svc.users, key, b.compare) && Present(svc.users[j].biometricKey) ==>
      j in compared
  {
    var users := svc.FindUsers();
    compared := [];
    var i := 0;
    while i < |users|
      invariant i <= |users|
      invariant forall j :: 0 <= j < i ==> !Unlocks(users[j], key, b.compare)
      invariant forall k :: 0 <= k < |compared| ==> compared[k] < i && Present(users[compared[k]].biometricKey)
      invariant forall j :: 0 <= j < i && Present(users[j].biometricKey) ==> j in compared
    {
      var user := users[i];
      if Present(user.biometricKey) {
        compared := compared + [i];
        if b.compare(key, user.biometricKey.value) {
          var token := SignPayload(Payload(user.id, user.email), sign);
          if token.Err? {
            return Err(token.error), compared;
          }
          return Ok(LoginResponse(token.value, user)), compared;
        }
      }
      i := i + 1;
    }
    return Err(BadRequest(INVALID_CREDENTIAL)), compared;
  }

  /** After a successful `updateBiometric` with a key that has no surrounding
      whitespace, `loginWithBiometric` with that key finds the owner. */
  lemma {:induction false} RotationThenBiometricLogin(users: seq<User>, ownerEmail: string, key: string,
                                                      b: Bcrypt, entropy: Entropy)
    requires UniqueEmails(users) && ValidEntropy(entropy) && Verifies(b)
    requires EmailIndex(users, ownerEmail).Some?
    requires !Collides(users, ownerEmail, key, b.compare)
    requires Trim(key) == key
    requires HashChain(Trim(key), Pepper(entropy.draws), entropy.salt, b.hash).Ok?
    ensures var digest := HashChain(Trim(key), Pepper(entropy.draws), entropy.salt, b.hash).value;
      FirstUnlocking(Rotated(users, ownerEmail, digest), key, b.compare) == EmailIndex(users, ownerEmail)
  {
    var digest := HashChain(key, Pepper(entropy.draws), entropy.salt, b.hash).value;
    HashChainVerifies(key, Pepper(entropy.draws), entropy.salt, b);
    var k := EmailIndex(users, ownerEmail).value;
    RotatedKeyFindsOwner(users, k, digest, key, b.compare);
  }

  /** The collision scan compares the raw key, but the digest stored is that
      of the trimmed key: with a bcrypt that verifies exactly the data it
      hashed, a key with surrounding whitespace no longer unlocks the owner's
      record it was just set on. */
  lemma PaddedKeyLocksOwnerOut(users: seq<User>, ownerEmail: string, key: string, b: Bcrypt, entropy: Entropy)
    requires ValidEntropy(entropy) && Exact(b)
    requires Trim(key) != key
    requires HashChain(Trim(key), Pepper(entropy.draws), entropy.salt, b.hash).Ok?
    ensures var digest := HashChain(Trim(key), Pepper(entropy.draws), entropy.salt, b.hash).value;
      forall i :: 0 <= i < |users| && users[i].email == ownerEmail ==>
        !Unlocks(Rotated(users, ownerEmail, digest)[i], key, b.compare)
  {
    var h := b.hash(Pepper(entropy.draws), entropy.salt.value).value;
    assert b.hash(Trim(key), h).Ok?;
  }
}
