/** The helpers of src/utils/helper.ts: random codes and password hashing. */
module Helper {
  import opened Wrappers
  import opened Errors
  import opened Crypto

  /** The upper-case set exactly as the source spells it: it has no 'X' and
      two 'Z's. */
  const UPPER := "ABCDEFGHIJKLMNOPQRSTUVWZYZ"
  const LOWER := "abcdefghijklmnopqrstuvwxyz"
  const DIGITS := "0123456789"

  /** What JavaScript appends when it indexes into an empty string. */
  const UNDEFINED := "undefined"

  /** The options of `generateOtp`, with the defaults its signature declares. */
  datatype OtpOptions = OtpOptions(length: int, upperCase: bool, lowerCase: bool, randomNum: bool)
  const DEFAULT_OTP := OtpOptions(6, false, false, true)

  /** The pepper `hashPassword` mixes in: 15 characters from all three sets. */
  const PEPPER_OPTIONS := OtpOptions(15, true, true, true)

  /** The results `Math.random` returns, one per character drawn. */
  predicate UnitDraws(draws: seq<real>)
  {
    forall i :: 0 <= i < |draws| ==> 0.0 <= draws[i] < 1.0
  }

  /** The random inputs of one `hashPassword` call: the `Math.random` results
      for the pepper, and what `bcrypt.genSalt` returned. */
  datatype Entropy = Entropy(draws: seq<real>, salt: Result<string, string>)

  predicate ValidEntropy(e: Entropy)
  {
    UnitDraws(e.draws) && PEPPER_OPTIONS.length <= |e.draws|
  }

  function Max0(n: int): nat { if n < 0 then 0 else n }

  /** The alphabet `generateOtp` draws from: upper case, then lower case,
      then digits, each only when its flag is set. */
  function Alphabet(upperCase: bool, lowerCase: bool, randomNum: bool): (r: string)
    ensures |r| == (if upperCase then 26 else 0) + (if lowerCase then 26 else 0) + (if randomNum then 10 else 0)
    ensures upperCase ==> r[..26] == UPPER
    ensures lowerCase ==> var a := if upperCase then 26 else 0; r[a..a + 26] == LOWER
    ensures randomNum ==> r[|r| - 10..] == DIGITS
  {
    (if upperCase then UPPER else "") + (if lowerCase then LOWER else "") + (if randomNum then DIGITS else "")
  }

  /** `Math.floor(x * n)` for a draw `x`: always a valid index into a
      non-empty alphabet of length `n`. */
  function DrawIndex(x: real, n: nat): (k: nat)
    requires 0.0 <= x < 1.0 && 0 < n
    ensures k < n
    ensures k as real <= x * (n as real) < k as real + 1.0
  {
    var m := n as real;
    assert 0.0 <= x * m by { assert 0.0 <= x && 0.0 < m; }
    assert x * m < m by {
      assert m - x * m == (1.0 - x) * m;
      assert 0.0 < 1.0 - x && 0.0 < m;
    }
    var k := (x * m).Floor;
    assert k as real <= x * m < k as real + 1.0;
    k
  }

  /** The piece one loop iteration appends: the drawn character, or
      "undefined" when the alphabet is empty. */
  function Pick(alphabet: string, x: real): (piece: string)
    requires 0.0 <= x < 1.0
    ensures |alphabet| > 0 ==> |piece| == 1 && piece[0] in alphabet
    ensures |alphabet| == 0 ==> piece == UNDEFINED
  {
    if |alphabet| == 0 then UNDEFINED else [alphabet[DrawIndex(x, |alphabet|)]]
  }

  /** Appending one more "undefined" to n of them gives n + 1 of them. */
  lemma UndefinedPieces(prev: string, n: nat)
    requires |prev| == 9 * n
    requires forall j :: 0 <= j < n ==> prev[9 * j..9 * j + 9] == UNDEFINED
    ensures forall j :: 0 <= j < n + 1 ==> (prev + UNDEFINED)[9 * j..9 * j + 9] == UNDEFINED
  {
    forall j | 0 <= j < n + 1
      ensures (prev + UNDEFINED)[9 * j..9 * j + 9] == UNDEFINED
    {
      if j < n {
        assert (prev + UNDEFINED)[9 * j..9 * j + 9] == prev[9 * j..9 * j + 9];
      }
    }
  }

  /** The code drawn with the first `length` draws. */
  function Otp(alphabet: string, draws: seq<real>, length: int): (otp: string)
    requires UnitDraws(draws) && length <= |draws|
    ensures |alphabet| > 0 ==> |otp| == Max0(length)
    ensures |alphabet| > 0 ==> forall i :: 0 <= i < |otp| ==> otp[i] in alphabet
    ensures |alphabet| == 0 ==> |otp| == 9 * Max0(length)
    decreases Max0(length)
  {
    if length <= 0 then ""
    else Otp(alphabet, draws, length - 1) + Pick(alphabet, draws[length - 1])
  }

  /** With an empty alphabet the code is "undefined" once per iteration. */
  lemma {:induction false} UndefinedOtp(draws: seq<real>, length: int)
    requires UnitDraws(draws) && length <= |draws|
    ensures var otp := Otp("", draws, length);
      forall j :: 0 <= j < Max0(length) ==> otp[9 * j..9 * j + 9] == UNDEFINED
    decreases Max0(length)
  {
    if length > 0 {
      UndefinedOtp(draws, length - 1);
      UndefinedPieces(Otp("", draws, length - 1), length - 1);
    }
  }

  /** The i-th character of the code is picked by the i-th draw. */
  lemma {:induction false} OtpAt(alphabet: string, draws: seq<real>, length: int, i: nat)
    requires UnitDraws(draws) && length <= |draws|
    requires |alphabet| > 0 && i < Max0(length)
    ensures Otp(alphabet, draws, length)[i] == alphabet[DrawIndex(draws[i], |alphabet|)]
    decreases Max0(length)
  {
    if i < length - 1 {
      OtpAt(alphabet, draws, length - 1, i);
    }
  }

  /** `generateOtp`: builds the alphabet from the three flags, then appends
      one drawn character per iteration. */
  method GenerateOtp(options: OtpOptions, draws: seq<real>) returns (otp: string)
    requires UnitDraws(draws) && options.length <= |draws|
    ensures otp == Otp(Alphabet(options.upperCase, options.lowerCase, options.randomNum), draws, options.length)
    ensures var alphabet := Alphabet(options.upperCase, options.lowerCase, options.randomNum);
      |alphabet| > 0 ==>
        && |otp| == Max0(options.length)
        && forall i :: 0 <= i < |otp| ==> otp[i] in alphabet
  {
    var result := "";
    if options.upperCase { result := UPPER; }
    if options.lowerCase { result := result + LOWER; }
    if options.randomNum { result := result + DIGITS; }
    assert result == Alphabet(options.upperCase, options.lowerCase, options.randomNum);
    otp := DrawCode(result, options.length, draws);
  }

  /** The counted loop of `generateOtp`: one drawn piece per iteration. */
  method DrawCode(alphabet: string, length: int, draws: seq<real>) returns (otp: string)
    requires UnitDraws(draws) && length <= |draws|
    ensures otp == Otp(alphabet, draws, length)
  {
    otp := "";
    var p := 0;
    while p < length
      invariant 0 <= p && (p <= length || p == 0)
      invariant otp == Otp(alphabet, draws, p)
    {
      otp := otp + Pick(alphabet, draws[p]);
      p := p + 1;
    }
  }

  /** With the default options a code is six digits. */
  lemma DefaultOtpIsSixDigits(draws: seq<real>)
    requires UnitDraws(draws) && 6 <= |draws|
    ensures var otp := Otp(Alphabet(DEFAULT_OTP.upperCase, DEFAULT_OTP.lowerCase, DEFAULT_OTP.randomNum), draws, DEFAULT_OTP.length);
      |otp| == 6 && forall i :: 0 <= i < 6 ==> '0' <= otp[i] <= '9'
  {
  }

  /** The upper-case set as written: 26 characters with no 'X', where 'Z'
      sits both at index 23 (where 'X' belongs) and at index 25. */
  lemma UpperSetAsWritten()
    ensures |UPPER| == 26 && 'X' !in UPPER
    ensures UPPER[23] == 'Z' && UPPER[25] == 'Z'
  {
  }

  /** So no code `generateOtp` draws ever contains 'X'. */
  lemma NoCodeContainsX(upperCase: bool, lowerCase: bool, randomNum: bool, draws: seq<real>, length: int)
    requires UnitDraws(draws) && length <= |draws|
    requires |Alphabet(upperCase, lowerCase, randomNum)| > 0
    ensures 'X' !in Otp(Alphabet(upperCase, lowerCase, randomNum), draws, length)
  {
    var alphabet := Alphabet(upperCase, lowerCase, randomNum);
    UpperSetAsWritten();
    assert 'X' !in LOWER by {
      assert forall i :: 0 <= i < |LOWER| ==> LOWER[i] != 'X';
    }
    assert 'X' !in DIGITS by {
      assert forall i :: 0 <= i < |DIGITS| ==> DIGITS[i] != 'X';
    }
    assert 'X' !in alphabet;
  }

  /** The pepper: 15 characters from the 62-character alphabet of all three
      sets. */
  function Pepper(draws: seq<real>): (pepper: string)
    requires UnitDraws(draws) && PEPPER_OPTIONS.length <= |draws|
    ensures |pepper| == 15
    ensures |Alphabet(true, true, true)| == 62
    ensures forall i :: 0 <= i < |pepper| ==> pepper[i] in Alphabet(true, true, true)
  {
    Otp(Alphabet(true, true, true), draws, PEPPER_OPTIONS.length)
  }

  /** The chain `hashPassword` runs after drawing the pepper: the salt from
      `genSalt`, then `h := hash(pepper, salt)`, then `hash(password, h)`.
      The first step that fails decides the error: an HTTP 500 that carries
      that step's own message. */
  function HashChain(password: string, pepper: string, salt: Result<string, string>,
                     hash: (string, string) -> Result<string, string>): (r: Result<string, Error>)
    ensures r.Err? ==> r.error.Http? && r.error.status == INTERNAL_SERVER_ERROR
    ensures salt.Err? ==> r == Err(Http(INTERNAL_SERVER_ERROR, salt.error))
    ensures salt.Ok? && hash(pepper, salt.value).Err? ==>
      r == Err(Http(INTERNAL_SERVER_ERROR, hash(pepper, salt.value).error))
    ensures salt.Ok? && hash(pepper, salt.value).Ok? ==>
      var h := hash(pepper, salt.value).value;
      && (hash(password, h).Ok? ==> r == Ok(hash(password, h).value))
      && (hash(password, h).Err? ==> r == Err(Http(INTERNAL_SERVER_ERROR, hash(password, h).error)))
  {
    match salt
    case Err(m) => Err(Http(INTERNAL_SERVER_ERROR, m))
    case Ok(s) =>
      match hash(pepper, s)
      case Err(m) => Err(Http(INTERNAL_SERVER_ERROR, m))
      case Ok(h) =>
        match hash(password, h)
        case Err(m) => Err(Http(INTERNAL_SERVER_ERROR, m))
        case Ok(d) => Ok(d)
  }

  /** The message of the first step of the chain that fails, step by step:
      `genSalt`, then `hash(pepper, salt)`, then `hash(password, h)`. */
  function FirstFailure(password: string, pepper: string, salt: Result<string, string>,
                        hash: (string, string) -> Result<string, string>): Option<string>
  {
    if salt.Err? then Some(salt.error)
    else if hash(pepper, salt.value).Err? then Some(hash(pepper, salt.value).error)
    else if hash(password, hash(pepper, salt.value).value).Err? then
      Some(hash(password, hash(pepper, salt.value).value).error)
    else None
  }

  /** Unlike `signPayload`, `hashPassword` passes the failure's own message
      on, at every step: the chain fails exactly when some step fails, with
      an HTTP 500 carrying that step's message, so two failing runs give the
      same error exactly when their failing steps report the same message. */
  lemma HashFailureKeepsCause(password1: string, pepper1: string, salt1: Result<string, string>,
                              hash1: (string, string) -> Result<string, string>,
                              password2: string, pepper2: string, salt2: Result<string, string>,
                              hash2: (string, string) -> Result<string, string>)
    ensures HashChain(password1, pepper1, salt1, hash1).Err? <==> FirstFailure(password1, pepper1, salt1, hash1).Some?
    ensures HashChain(password1, pepper1, salt1, hash1).Err? ==>
      HashChain(password1, pepper1, salt1, hash1).error
        == Http(INTERNAL_SERVER_ERROR, FirstFailure(password1, pepper1, salt1, hash1).value)
    ensures HashChain(password1, pepper1, salt1, hash1).Err? && HashChain(password2, pepper2, salt2, hash2).Err? ==>
      ((HashChain(password1, pepper1, salt1, hash1) == HashChain(password2, pepper2, salt2, hash2)) <==>
       (FirstFailure(password1, pepper1, salt1, hash1) == FirstFailure(password2, pepper2, salt2, hash2)))
  {
  }

  /** A successful hash is a digest bcrypt made from the password itself, so
      it verifies against the password. */
  lemma HashChainVerifies(password: string, pepper: string, salt: Result<string, string>, b: Bcrypt)
    requires Verifies(b)
    requires HashChain(password, pepper, salt, b.hash).Ok?
    ensures var d := HashChain(password, pepper, salt, b.hash).value;
      d != "" && b.compare(password, d)
  {
  }

  /** `hashPassword`: draws the pepper, then runs the chain; any failure is
      rethrown as an HTTP 500 with the failing step's message. */
  method HashPassword(password: string, b: Bcrypt, entropy: Entropy) returns (r: Result<string, Error>)
    requires ValidEntropy(entropy)
    ensures r == HashChain(password, Pepper(entropy.draws), entropy.salt, b.hash)
  {
    var n := GenerateOtp(PEPPER_OPTIONS, entropy.draws);
    match entropy.salt {
      case Err(m) =>
        return Err(Http(INTERNAL_SERVER_ERROR, m));
      case Ok(s) =>
        var h := b.hash(n, s);
        if h.Err? {
          return Err(Http(INTERNAL_SERVER_ERROR, h.error));
        }
        var d := b.hash(password, h.value);
        if d.Err? {
          return Err(Http(INTERNAL_SERVER_ERROR, d.error));
        }
        return Ok(d.value);
    }
  }
}
