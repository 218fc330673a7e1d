/** The user store of src/user/user.service.ts: registration, lookups and the
    rotation of a user's biometric key. */
module Users {
  import opened Wrappers
  import opened Errors
  import opened Text
  import opened Crypto
  import opened Helper

  /** A stored user record. `None` stands for a null column; both secrets are
      bcrypt digests. */
  datatype User = User(id: nat, email: string, password: Option<string>, biometricKey: Option<string>)

  /** The input of `register`. */
  datatype CreateUserInput = CreateUserInput(email: string, password: string)

  const USER_EXISTS := "User already exists"
  const USER_NOT_FOUND := "User not found"
  const OWNER_NOT_FOUND := "User not found!"
  const KEY_ALREADY_USED := "Biometric key already used."
  const KEY_NOT_FOUND := "User nott found!"

  /** JavaScript truthiness of a nullable string column: neither null nor "". */
  predicate Present(column: Option<string>)
  {
    column.Some? && column.value != ""
  }

  /** `u` holds a biometric digest and the presented key verifies against it. */
  predicate Unlocks(u: User, key: string, compare: (string, string) -> bool)
  {
    Present(u.biometricKey) && compare(key, u.biometricKey.value)
  }

  ghost predicate UniqueEmails(users: seq<User>)
  {
    forall i, j :: 0 <= i < j < |users| ==> users[i].email != users[j].email
  }

  ghost predicate UniqueIds(users: seq<User>)
  {
    forall i, j :: 0 <= i < j < |users| ==> users[i].id != users[j].id
  }

  /** The index of the first element satisfying `p`, in sequence order. */
  function FirstIndex<T>(s: seq<T>, p: T -> bool): (r: Option<nat>)
    ensures r.Some? ==> r.value < |s| && p(s[r.value]) && forall j :: 0 <= j < r.value ==> !p(s[j])
    ensures r.None? ==> forall j :: 0 <= j < |s| ==> !p(s[j])
  {
    if s == [] then None
    else if p(s[0]) then Some(0)
    else match FirstIndex(s[1..], p)
      case None => None
      case Some(i) => Some(i + 1)
  }

  function EmailIndex(users: seq<User>, email: string): Option<nat>
  {
    FirstIndex(users, (u: User) => u.email == email)
  }

  function IdIndex(users: seq<User>, id: nat): Option<nat>
  {
    FirstIndex(users, (u: User) => u.id == id)
  }

  function KeyIndex(users: seq<User>, key: string): Option<nat>
  {
    FirstIndex(users, (u: User) => u.biometricKey == Some(key))
  }

  /** The first record, in store order, that the presented key unlocks. */
  function FirstUnlocking(users: seq<User>, key: string, compare: (string, string) -> bool): Option<nat>
  {
    FirstIndex(users, (u: User) => Unlocks(u, key, compare))
  }

  /** Some record of another user than `ownerEmail` is unlocked by `key`. */
  predicate Collides(users: seq<User>, ownerEmail: string, key: string, compare: (string, string) -> bool)
  {
    exists i :: 0 <= i < |users| && users[i].email != ownerEmail && Unlocks(users[i], key, compare)
  }

  /** The store after the update `where: {email}` sets the biometric digest. */
  function Rotated(users: seq<User>, email: string, digest: string): (r: seq<User>)
    ensures |r| == |users|
    ensures forall i :: 0 <= i < |users| && users[i].email != email ==> r[i] == users[i]
    ensures forall i :: 0 <= i < |users| && users[i].email == email ==>
      r[i] == users[i].(biometricKey := Some(digest))
  {
    seq(|users|, i requires 0 <= i < |users| =>
      if users[i].email == email then users[i].(biometricKey := Some(digest)) else users[i])
  }

  /** After a rotation that passed the collision check, the rotated key finds
      the owner: no other record is unlocked by it, and the owner's new digest
      is. */
  lemma RotatedKeyFindsOwner(users: seq<User>, k: nat, digest: string, key: string,
                                                compare: (string, string) -> bool)
    requires UniqueEmails(users) && k < |users|
    requires !Collides(users, users[k].email, key, compare)
    requires digest != "" && compare(key, digest)
    ensures FirstUnlocking(Rotated(users, users[k].email, digest), key, compare) == Some(k)
  {
  }

  /** No plaintext key unlocks two stored records. */
  ghost predicate BiometricUnique(users: seq<User>, compare: (string, string) -> bool)
  {
    forall plain, i, j :: 0 <= i < j < |users| && Unlocks(users[i], plain, compare) ==>
      !Unlocks(users[j], plain, compare)
  }

  /** With a bcrypt that verifies exactly the data it hashed, a rotation that
      passed the collision check and stores the digest of the very key it
      checked keeps every plaintext key unlocking at most one record. */
  lemma {:induction false} RotationKeepsBiometricUnique(users: seq<User>, k: nat, key: string, b: Bcrypt,
                                                        pepper: string, salt: Result<string, string>)
    requires UniqueEmails(users) && BiometricUnique(users, b.compare) && Exact(b)
    requires k < |users|
    requires !Collides(users, users[k].email, key, b.compare)
    requires Trim(key) == key
    requires HashChain(Trim(key), pepper, salt, b.hash).Ok?
    ensures BiometricUnique(Rotated(users, users[k].email, HashChain(Trim(key), pepper, salt, b.hash).value), b.compare)
  {
    var digest := HashChain(key, pepper, salt, b.hash).value;
    assert b.hash(key, b.hash(pepper, salt.value).value) == Ok(digest);
    var after := Rotated(users, users[k].email, digest);
    forall plain, i, j | 0 <= i < j < |after| && Unlocks(after[i], plain, b.compare)
      ensures !Unlocks(after[j], plain, b.compare)
    {
      if i == k || j == k {
        var other := if i == k then j else i;
        assert users[other].email != users[k].email;
        assert after[other] == users[other];
        if Unlocks(after[k], plain, b.compare) {
          assert plain == key;
          assert !Unlocks(users[other], key, b.compare);
        }
      } else {
        assert after[i] == users[i] && after[j] == users[j];
      }
    }
  }

  /** A bcrypt that verifies exactly the data it hashed: the digest is the
      data itself. */
  function IdentityBcrypt(): (b: Bcrypt)
    ensures Exact(b)
  {
    Bcrypt((plain: string, digest: string) => plain == digest, (data: string, salt: string) => Ok(data))
  }

  /** A key with surrounding whitespace breaks that invariant: user "a" holds
      the digest of "k"; user "b" rotates to " k", which unlocks nobody, so
      the check passes; the digest stored is that of "k", which now unlocks
      both records. */
  lemma PaddedRotationBreaksBiometricUnique(pepper: string, salt: string)
    ensures var b := IdentityBcrypt();
      && UniqueEmails(PaddedStore()) && BiometricUnique(PaddedStore(), b.compare)
      && !Collides(PaddedStore(), "b", " k", b.compare)
      && HashChain(Trim(" k"), pepper, Ok(salt), b.hash) == Ok("k")
      && var after := Rotated(PaddedStore(), "b", "k");
      && Unlocks(after[0], "k", b.compare) && Unlocks(after[1], "k", b.compare)
      && !BiometricUnique(after, b.compare)
  {
    PaddedStoreBefore();
    TrimPaddedKey();
    PaddedStoreAfter();
  }

  /** User "a" holds the digest of "k" (the identity digest); user "b" has
      no biometric key. */
  function PaddedStore(): (users: seq<User>)
    ensures |users| == 2
  {
    [User(1, "a", None, Some("k")), User(2, "b", None, None)]
  }

  lemma PaddedStoreBefore()
    ensures UniqueEmails(PaddedStore())
    ensures BiometricUnique(PaddedStore(), IdentityBcrypt().compare)
    ensures !Collides(PaddedStore(), "b", " k", IdentityBcrypt().compare)
  {
    var users := PaddedStore();
    var compare := IdentityBcrypt().compare;
    assert !Present(users[1].biometricKey);
    assert " k" != "k" by { assert |" k"| != |"k"|; }
    assert !Unlocks(users[0], " k", compare);
  }

  lemma PaddedStoreAfter()
    ensures var after := Rotated(PaddedStore(), "b", "k");
      && Unlocks(after[0], "k", IdentityBcrypt().compare)
      && Unlocks(after[1], "k", IdentityBcrypt().compare)
      && !BiometricUnique(after, IdentityBcrypt().compare)
  {
    var users := PaddedStore();
    var compare := IdentityBcrypt().compare;
    var after := Rotated(users, "b", "k");
    assert users[0].email != "b" by { assert users[0].email[0] != "b"[0]; }
    assert after[0] == User(1, "a", None, Some("k"));
    assert after[1] == User(2, "b", None, Some("k"));
    assert Unlocks(after[0], "k", compare) && Unlocks(after[1], "k", compare);
  }

  lemma TrimPaddedKey()
    ensures Trim(" k") == "k"
  {
    assert " k"[1..] == "k";
    assert TrimStart("k") == "k";
    assert TrimEnd("k") == "k";
  }

  /** Appending a record whose email is new and whose id is above every
      stored id keeps emails and ids unique. */
  lemma AppendKeepsUnique(users: seq<User>, nextId: nat, user: User)
    requires UniqueEmails(users) && UniqueIds(users)
    requires forall i :: 0 <= i < |users| ==> users[i].id < nextId && users[i].email != user.email
    requires user.id == nextId
    ensures UniqueEmails(users + [user]) && UniqueIds(users + [user])
    ensures forall i :: 0 <= i < |users + [user]| ==> (users + [user])[i].id < nextId + 1
  {
  }

  /** A rotation changes neither emails nor ids. */
  lemma RotatedKeepsKeys(users: seq<User>, email: string, digest: string)
    ensures var after := Rotated(users, email, digest);
      forall i :: 0 <= i < |users| ==> after[i].email == users[i].email && after[i].id == users[i].id
  {
  }

  class UserService {
    /** The rows of the user table, in the order `findMany` returns them. */
    var users: seq<User>
    /** The id the table's auto-increment assigns next. */
    var nextId: nat

    ghost predicate Valid()
      reads this
    {
      && UniqueEmails(users)
      && UniqueIds(users)
      && (forall i :: 0 <= i < |users| ==> users[i].id < nextId)
    }

    constructor ()
      ensures Valid() && users == [] && nextId == 1
    {
      users := [];
      nextId := 1;
    }

    /** `findUsers`: every record, in store order. */
    function FindUsers(): (r: seq<User>)
      reads this
      ensures |r| == |users| && forall i :: 0 <= i < |r| ==> r[i] == users[i]
    {
      users
    }

    /** `findOneByEmail`: the record with exactly this email, or null. */
    function FindOneByEmail(email: string): (r: Option<User>)
      reads this
      ensures r.Some? ==> r.value in users && r.value.email == email
      ensures r.None? <==> forall i :: 0 <= i < |users| ==> users[i].email != email
    {
      match EmailIndex(users, email)
      case None => None
      case Some(i) => Some(users[i])
    }

    /** `findOneById`: the record with this id, or BadRequest "User not found". */
    function FindOneById(id: nat): (r: Result<User, Error>)
      reads this
      ensures r.Ok? ==> r.value in users && r.value.id == id
      ensures r.Err? <==> forall i :: 0 <= i < |users| ==> users[i].id != id
      ensures r.Err? ==> r.error == BadRequest(USER_NOT_FOUND)
    {
      match IdIndex(users, id)
      case None => Err(BadRequest(USER_NOT_FOUND))
      case Some(i) => Ok(users[i])
    }

    /** `findOneWithBiometricKey`: the first record whose stored key equals the
        argument character for character, or BadRequest "User nott found!". */
    function FindOneWithBiometricKey(key: string): (r: Result<User, Error>)
      reads this
      ensures r.Ok? ==> exists i :: (0 <= i < |users| && users[i] == r.value && users[i].biometricKey == Some(key)
        && forall j :: 0 <= j < i ==> users[j].biometricKey != Some(key))
      ensures r.Err? <==> forall i :: 0 <= i < |users| ==> users[i].biometricKey != Some(key)
      ensures r.Err? ==> r.error == BadRequest(KEY_NOT_FOUND)
    {
      match KeyIndex(users, key)
      case None => Err(BadRequest(KEY_NOT_FOUND))
      case Some(i) => Ok(users[i])
    }

    /** `register`: refuses an email whose trimmed form is on record, hashes the
        password, and appends a record with the trimmed, lower-cased email. */
    method Register(input: CreateUserInput, b: Bcrypt, entropy: Entropy) returns (r: Result<User, Error>)
      requires Valid() && ValidEntropy(entropy)
      modifies this
      ensures Valid()
      ensures r.Err? ==> users == old(users) && nextId == old(nextId)
      ensures EmailIndex(old(users), Trim(input.email)).Some? ==> r == Err(BadRequest(USER_EXISTS))
      ensures EmailIndex(old(users), Trim(input.email)).None? ==>
        var hashed := HashChain(input.password, Pepper(entropy.draws), entropy.salt, b.hash);
        && (hashed.Err? ==> r == Err(hashed.error))
        && (hashed.Ok? && EmailIndex(old(users), NormalizeEmail(input.email)).Some? ==> r == Err(UniqueViolation))
        && (hashed.Ok? && EmailIndex(old(users), NormalizeEmail(input.email)).None? ==>
              && r == Ok(User(old(nextId), NormalizeEmail(input.email), Some(hashed.value), None))
              && users == old(users) + [r.value]
              && nextId == old(nextId) + 1)
    {
      var existing := FindOneByEmail(Trim(input.email));
      if existing.Some? {
        return Err(BadRequest(USER_EXISTS));
      }
      var hashed := HashPassword(input.password, b, entropy);
      if hashed.Err? {
        return Err(hashed.error);
      }
      r := Create(NormalizeEmail(input.email), hashed.value);
    }

    /** The store's `create`: a new row with the next id and no biometric
        key, refused when the email is already taken. */
    method Create(email: string, password: string) returns (r: Result<User, Error>)
      requires Valid()
      modifies this
      ensures Valid()
      ensures EmailIndex(old(users), email).Some? ==>
        r == Err(UniqueViolation) && users == old(users) && nextId == old(nextId)
      ensures EmailIndex(old(users), email).None? ==>
        && r == Ok(User(old(nextId), email, Some(password), None))
        && users == old(users) + [r.value]
        && nextId == old(nextId) + 1
    {
      if FindOneByEmail(email).Some? {
        return Err(UniqueViolation);
      }
      var user := User(nextId, email, Some(password), None);
      AppendKeepsUnique(users, nextId, user);
      users := users + [user];
      nextId := nextId + 1;
      return Ok(user);
    }

    /** `updateBiometric`: the owner is found by the authenticated email; every
        record is scanned for another user whose digest the raw key unlocks;
        then the owner's digest becomes the hash of the trimmed key. The result
        is the owner's record as it was before the update. */
    method UpdateBiometric(ownerEmail: string, key: string, b: Bcrypt, entropy: Entropy) returns (r: Result<User, Error>)
      requires Valid() && ValidEntropy(entropy)
      modifies this
      ensures Valid() && nextId == old(nextId)
      ensures r.Err? ==> users == old(users)
      ensures EmailIndex(old(users), ownerEmail).None? ==> r == Err(BadRequest(OWNER_NOT_FOUND))
      ensures EmailIndex(old(users), ownerEmail).Some? && Collides(old(users), ownerEmail, key, b.compare) ==>
        r == Err(BadRequest(KEY_ALREADY_USED))
      ensures EmailIndex(old(users), ownerEmail).Some? && !Collides(old(users), ownerEmail, key, b.compare) ==>
        var hashed := HashChain(Trim(key), Pepper(entropy.draws), entropy.salt, b.hash);
        && (hashed.Err? ==> r == Err(hashed.error))
        && (hashed.Ok? ==> r == Ok(old(users)[EmailIndex(old(users), ownerEmail).value])
                           && users == Rotated(old(users), ownerEmail, hashed.value))
    {
      var user := FindOneByEmail(ownerEmail);
      if user.None? {
        return Err(BadRequest(OWNER_NOT_FOUND));
      }
      var all := users;
      var i := 0;
      while i < |all|
        invariant i <= |all|
        invariant forall j :: 0 <= j < i ==> !(Unlocks(all[j], key, b.compare) && all[j].email != ownerEmail)
      {
        var u := all[i];
        if Present(u.biometricKey) && b.compare(key, u.biometricKey.value) && user.value.email != u.email {
          assert Collides(all, ownerEmail, key, b.compare);
          return Err(BadRequest(KEY_ALREADY_USED));
        }
        i := i + 1;
      }
      assert !Collides(all, ownerEmail, key, b.compare);
      var hashed := HashPassword(Trim(key), b, entropy);
      if hashed.Err? {
        return Err(hashed.error);
      }
      Update(ownerEmail, hashed.value);
      return Ok(user.value);
    }

    /** The store's `update` `where: {email}` of the biometric digest. */
    method Update(email: string, digest: string)
      requires Valid()
      modifies this
      ensures Valid() && nextId == old(nextId)
      ensures users == Rotated(old(users), email, digest)
    {
      RotatedKeepsKeys(users, email, digest);
      users := Rotated(users, email, digest);
    }
  }
}
