# Credential core of the divic authentication service

A Dafny model of the credential-decision logic of a NestJS/GraphQL service:

- `AuthService` (`src/auth/auth.service.ts`): password validation, token issue, and login by biometric key. Biometric login scans every stored user in order.
- `UserService` (`src/user/user.service.ts`): registration, the lookups, and the rotation of a user's biometric key. Rotation first checks that the new key collides with no other user's key.
- `helper.ts` (`src/utils/helper.ts`): `generateOtp` draws a random code from an alphabet chosen by three flags. `hashPassword` hashes a random pepper with bcrypt, then hashes the password with that result as salt.

Modules, one per source file plus small shared ones:

| file | module | models |
|---|---|---|
| `wrappers.dfy` | `Wrappers`, `Errors` | null results (`Option`), thrown exceptions (`Result`, `Error`) |
| `text.dfy` | `Text` | `String.prototype.trim`, `toLowerCase` (ASCII letters) |
| `crypto.dfy` | `Crypto` | bcrypt `compare`/`hash` as function values supplied by the caller |
| `helper.dfy` | `Helper` | `generateOtp` (a method with a loop), `hashPassword` |
| `user_service.dfy` | `Users` | `UserService`: a class whose `users: seq<User>` field is the user table |
| `auth_service.dfy` | `Auth` | `validateUser`, `login`, `loginWithBiometric` (a method with a loop), `signPayload` |

The random and external inputs are parameters:

- `Math.random` is a sequence of draws in `[0, 1)`.
- `bcrypt.genSalt` is its outcome, a salt or a failure message.
- `bcrypt.hash` and `bcrypt.compare` are function values.
- The JWT signer is a function from the `{id, email}` payload to a token or a failure.

Behaviour the model keeps from the code:

- **Three validation errors, not one.** `validateUser` uses the same message for an unknown email and a wrong password ("Invalid login credentials"). A record without a password gets its own message, "User does not have a password". A design that treats all three failures alike would hide that case; the model follows the code.
- **The returned user keeps its biometric digest.** `validateUser` deletes only `password`.
- **Register's lookup is not normalised.** `register` looks the email up trimmed but not lower-cased, then stores it trimmed and lower-cased. So, when the database compares emails case-sensitively (the schema is not part of this model), "A@x.com" passes the existence check while "a@x.com" is on record. The table's unique index then refuses the row (`Error.UniqueViolation`), not the "User already exists" check.
- **Rotation checks one key and stores another.** `updateBiometric` checks collisions with the raw key but stores the hash of the trimmed key. If a key has no surrounding whitespace, a later biometric login with it finds the owner (`Auth.RotationThenBiometricLogin`). If it has whitespace, the owner's new digest no longer verifies against the raw key used to set it (`Auth.PaddedKeyLocksOwnerOut`).
- **Rotation keeps biometric keys unique only for trimmed keys.** The comment at `src/user/user.service.ts:59` intends that no key unlocks two users. With a bcrypt that verifies exactly the data it hashed, a rotation with a key that has no surrounding whitespace keeps that invariant (`Users.RotationKeepsBiometricUnique`). A padded key breaks it: " k" unlocks nobody, so the check passes, but the stored digest is that of "k", which another user already holds (`Users.PaddedRotationBreaksBiometricUnique`).
- **The upper-case set has no 'X'.** It reads "ABCDEFGHIJKLMNOPQRSTUVWZYZ": 'X' is missing and 'Z' appears twice, so no code contains 'X'.
- **An empty alphabet gives "undefined" strings.** With all three flags off the alphabet is empty. Indexing the empty string yields `undefined`, so each iteration appends the text "undefined". The model keeps this rather than requiring a non-empty alphabet.

## Model

| member | source | states |
|---|---|---|
| `Text.Trim` | src/user/user.service.ts:18 | `trim()` keeps the slice of the input between its leading and trailing whitespace; everything removed is whitespace and the result neither starts nor ends with it |
| `Text.NormalizeEmail` | src/user/user.service.ts:23 | the stored email has the trimmed length, and each character is the trimmed input's character at that position, lowered (an ASCII upper-case letter moves up by 32, anything else is kept); it neither starts nor ends with whitespace |
| `Helper.Alphabet` | src/utils/helper.ts:12-15 | the alphabet has length 26·[upper] + 26·[lower] + 10·[num], with the upper set first, then the lower set, then the digits |
| `Helper.DrawIndex` | src/utils/helper.ts:18 | `floor(random · n)` is a valid index for a non-empty alphabet of length n, and is the integer k with k ≤ random · n < k + 1 |
| `Helper.Otp` | src/utils/helper.ts:16-19 | with a non-empty alphabet the code has exactly `length` characters (none when `length` ≤ 0), each from the alphabet; with an empty one its length is 9 · `length` |
| `Helper.UndefinedOtp` | src/utils/helper.ts:16-19 | with an empty alphabet every 9-character block of the code is "undefined": one "undefined" per iteration |
| `Helper.OtpAt` | src/utils/helper.ts:17-18 | character i of the code is the alphabet entry that draw i selects |
| `Helper.GenerateOtp` | src/utils/helper.ts:9-21 | the loop yields the code of the flags' alphabet: `length` characters, each drawn from that alphabet when it is non-empty |
| `Helper.DrawCode` | src/utils/helper.ts:16-19 | the `for` loop appends one picked character per draw and ends with the code `Otp` specifies for the alphabet and length |
| `Helper.DefaultOtpIsSixDigits` | src/utils/helper.ts:10 | with the default options the code is six decimal digits |
| `Helper.UpperSetAsWritten` | src/utils/helper.ts:13 | the upper set has 26 characters, no 'X', and 'Z' at both index 23 and index 25 |
| `Helper.NoCodeContainsX` | src/utils/helper.ts:13-18 | no code drawn from any non-empty alphabet contains 'X' |
| `Helper.Pepper` | src/utils/helper.ts:25 | the pepper has 15 characters from the 62-character alphabet of all three sets |
| `Helper.HashChain` | src/utils/helper.ts:26-30 | salt, then `h = hash(pepper, salt)`, then `hash(password, h)`; the first step that fails yields an HTTP 500 carrying that step's own message |
| `Helper.HashChainVerifies` | src/utils/helper.ts:26-28 | if bcrypt digests verify against their data, a successful `hashPassword` result is non-empty and verifies against the password |
| `Helper.HashFailureKeepsCause` | src/utils/helper.ts:26-31 | the chain fails exactly when one of `genSalt`, the pepper hash or the password hash fails, with HTTP 500 and the first failing step's message; two failing chains give equal errors exactly when their first failing messages are equal |
| `Helper.HashPassword` | src/utils/helper.ts:23-32 | draws the 15-character pepper and returns exactly the outcome of the hash chain on it |
| `Users.Rotated` | src/user/user.service.ts:70-77 | the update changes only the biometric digest of the records with the owner's email; every other record is untouched |
| `Users.RotatedKeyFindsOwner` | src/user/user.service.ts:60-77 | if no other user's digest verifies the key and the owner's new digest does, the first record the key unlocks is the owner's |
| `Users.RotationKeepsBiometricUnique` | src/user/user.service.ts:59-77 | when bcrypt verifies exactly the data it hashed and the key has no surrounding whitespace, a rotation that passed the collision check keeps every plaintext key unlocking at most one record |
| `Users.PaddedRotationBreaksBiometricUnique` | src/user/user.service.ts:63-72 | a concrete store where the collision check passes for " k" but the stored digest of "k" then unlocks two records |
| `Users.UserService.FindUsers` | src/user/user.service.ts:30-32 | returns every record, in store order |
| `Users.UserService.FindOneById` | src/user/user.service.ts:34-42 | a stored record with that id, or BadRequest "User not found" exactly when no record has the id |
| `Users.UserService.FindOneByEmail` | src/user/user.service.ts:44-51 | a stored record with exactly that email, or null exactly when no record has it |
| `Users.UserService.FindOneWithBiometricKey` | src/user/user.service.ts:81-89 | the first record whose stored key equals the argument exactly, or BadRequest "User nott found!" exactly when none does |
| `Users.UserService.Register` | src/user/user.service.ts:16-28 | an email on record in trimmed form gives BadRequest "User already exists"; a hashing failure is passed on; otherwise exactly one record is appended with the next id, the normalised email, the password's hash and no biometric key, and it is returned; every failure leaves the store unchanged and emails and ids stay unique |
| `Users.UserService.Create` | src/user/user.service.ts:21-26 | appends one record with the next id, or refuses an email already taken and leaves the store as it was |
| `Users.UserService.UpdateBiometric` | src/user/user.service.ts:55-79 | unknown owner: BadRequest "User not found!"; another user's digest verifying the raw key: BadRequest "Biometric key already used." (the owner's own digest never blocks); hashing failure passed on; otherwise only the owner's digest becomes the hash of the trimmed key and the record as fetched before the update is returned; every failure leaves the store unchanged |
| `Users.UserService.Update` | src/user/user.service.ts:70-77 | the store becomes the rotated store; emails and ids stay unique |
| `Auth.SignPayload` | src/auth/auth.service.ts:59-69 | the signer's token unchanged on success; on any signer failure InternalServerError "Internal server exception!" |
| `Auth.SignFailureHidesCause` | src/auth/auth.service.ts:66-68 | two signers failing for different reasons give the same error |
| `Auth.Login` | src/auth/auth.service.ts:31-38 | signs exactly `{id, email}` of the user and returns that token with the user unmodified; signer failure gives the internal error |
| `Auth.ValidateUser` | src/auth/auth.service.ts:15-28 | no record for the email, or a wrong password: BadRequest "Invalid login credentials"; a record with a null or empty password: BadRequest "User does not have a password"; otherwise that record with only its password removed |
| `Auth.ValidateUserSkipsCompare` | src/auth/auth.service.ts:16-19 | when no record with a password has the email, the result does not depend on bcrypt's compare |
| `Auth.LoginWithBiometric` | src/auth/auth.service.ts:41-56 | the first record in store order with a non-empty digest that verifies the key is logged in (every earlier one has none or fails); none: BadRequest "Invalid credential"; compare runs on exactly the records with a non-empty digest up to the match |
| `Auth.RotationThenBiometricLogin` | src/user/user.service.ts:55-79 | after a successful rotation with a key that has no surrounding whitespace, biometric login with that key finds the owner |
| `Auth.PaddedKeyLocksOwnerOut` | src/user/user.service.ts:63-72 | when bcrypt verifies exactly the data it hashed, a key with surrounding whitespace does not unlock the owner's record it was just stored on |

## Left out

- Resolvers, guards, decorators, module wiring, bootstrap and the Passport strategies: framework plumbing with no decision logic.
- DTO validation (`IsEmail`, `IsStrongPassword`, `IsNotEmpty`) and the GraphQL `UserResponse` projection: both belong to foreign libraries. The returned records carry every field, secrets included.
- The `createdAt`/`updatedAt` columns: the database sets them and no decision reads them.
- bcrypt and JWT internals: `compare`, `hash`, `genSalt` and the signer are parameters.
- `process.env` values (`JWT_SECRET`, `SALT`): these live inside the signer and the `genSalt` outcome.
- Prisma's error objects: a duplicate email on create is the single value `UniqueViolation`.
- async/await and the check-then-write race in `updateBiometric`: each call is one atomic step.
- `Math.random` floating point: draws are exact reals in `[0, 1)`, so the rounding of `random · n` is not modelled.
- `Text.NormalizeEmail`: `toLowerCase` is modelled for the ASCII letters only, because full Unicode case mapping is not modelled.
- `Helper.GenerateOtp`: `length` is an integer. A fractional JavaScript number would run one more iteration, and that is not modelled.
