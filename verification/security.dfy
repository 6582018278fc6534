/** Password-strength validation (`backend/app/core/security.py`). The rules are checked in
    a fixed order and the first one that fails decides the message. */
module Security {
  import opened Wrappers
  import opened Json

  /** The rules, in the order they are checked. */
  datatype Rule = MinLength | HasUppercase | HasLowercase | HasDigit | HasSpecial

  const RuleOrder: seq<Rule> := [MinLength, HasUppercase, HasLowercase, HasDigit, HasSpecial]

  const MinPasswordLength := 8

  /** The characters of the class `[!@#$%^&*(),.?":{}|<>]`. */
  const SpecialCharacters: string := "!@#$%^&*(),.?\":{}|<>"

  const LengthMessage: string := "\U{0631}\U{0645}\U{0632} \U{0639}\U{0628}\U{0648}\U{0631} \U{0628}\U{0627}\U{06CC}\U{062F} \U{062D}\U{062F}\U{0627}\U{0642}\U{0644} 8 \U{06A9}\U{0627}\U{0631}\U{0627}\U{06A9}\U{062A}\U{0631} \U{0628}\U{0627}\U{0634}\U{062F}"
  const UppercaseMessage: string := "\U{0631}\U{0645}\U{0632} \U{0639}\U{0628}\U{0648}\U{0631} \U{0628}\U{0627}\U{06CC}\U{062F} \U{062D}\U{062F}\U{0627}\U{0642}\U{0644} \U{06CC}\U{06A9} \U{062D}\U{0631}\U{0641} \U{0628}\U{0632}\U{0631}\U{06AF} \U{062F}\U{0627}\U{0634}\U{062A}\U{0647} \U{0628}\U{0627}\U{0634}\U{062F}"
  const LowercaseMessage: string := "\U{0631}\U{0645}\U{0632} \U{0639}\U{0628}\U{0648}\U{0631} \U{0628}\U{0627}\U{06CC}\U{062F} \U{062D}\U{062F}\U{0627}\U{0642}\U{0644} \U{06CC}\U{06A9} \U{062D}\U{0631}\U{0641} \U{06A9}\U{0648}\U{0686}\U{06A9} \U{062F}\U{0627}\U{0634}\U{062A}\U{0647} \U{0628}\U{0627}\U{0634}\U{062F}"
  const DigitMessage: string := "\U{0631}\U{0645}\U{0632} \U{0639}\U{0628}\U{0648}\U{0631} \U{0628}\U{0627}\U{06CC}\U{062F} \U{062D}\U{062F}\U{0627}\U{0642}\U{0644} \U{06CC}\U{06A9} \U{0639}\U{062F}\U{062F} \U{062F}\U{0627}\U{0634}\U{062A}\U{0647} \U{0628}\U{0627}\U{0634}\U{062F}"
  const SpecialMessage: string := "\U{0631}\U{0645}\U{0632} \U{0639}\U{0628}\U{0648}\U{0631} \U{0628}\U{0627}\U{06CC}\U{062F} \U{062D}\U{062F}\U{0627}\U{0642}\U{0644} \U{06CC}\U{06A9} \U{06A9}\U{0627}\U{0631}\U{0627}\U{06A9}\U{062A}\U{0631} \U{062E}\U{0627}\U{0635} \U{062F}\U{0627}\U{0634}\U{062A}\U{0647} \U{0628}\U{0627}\U{0634}\U{062F}"

  /** Python's `\d` on text matches every Unicode decimal digit; the ASCII digits and the
      Arabic-Indic and Extended Arabic-Indic (Persian) blocks are the ones listed here. */
  predicate IsDecimalDigit(c: char) {
    || '0' <= c <= '9'
    || '\U{0660}' <= c <= '\U{0669}'
    || '\U{06F0}' <= c <= '\U{06F9}'
  }

  /** The character class behind each "contains" rule; the length rule has none. */
  predicate InClass(r: Rule, c: char) {
    match r
    case MinLength => false
    case HasUppercase => 'A' <= c <= 'Z'
    case HasLowercase => 'a' <= c <= 'z'
    case HasDigit => IsDecimalDigit(c)
    case HasSpecial => c in SpecialCharacters
  }

  /** Whether a password satisfies one rule on its own. */
  predicate Holds(r: Rule, pw: string) {
    if r == MinLength then |pw| >= MinPasswordLength
    else exists k :: 0 <= k < |pw| && InClass(r, pw[k])
  }

  /** `re.search` with the class of one rule, scanning left to right. */
  function Search(r: Rule, pw: string): (found: bool)
    requires r != MinLength
    ensures found <==> Holds(r, pw)
  {
    if pw == [] then false
    else if InClass(r, pw[0]) then true
    else
      var rest := Search(r, pw[1..]);
      assert Holds(r, pw) <==> Holds(r, pw[1..]) by {
        if Holds(r, pw[1..]) {
          var k :| 0 <= k < |pw[1..]| && InClass(r, pw[1..][k]);
          assert pw[k + 1] == pw[1..][k];
        }
        if Holds(r, pw) {
          var k :| 0 <= k < |pw| && InClass(r, pw[k]);
          assert pw[1..][k - 1] == pw[k];
        }
      }
      rest
  }

  /** The outcome of validation: valid, or the first rule that failed. */
  datatype Verdict = Valid | Broken(rule: Rule)

  /** `validate_password_strength`. */
  function ValidatePasswordStrength(pw: string): (v: Verdict)
    // Valid exactly when every rule holds.
    ensures v == Valid <==> forall k :: 0 <= k < |RuleOrder| ==> Holds(RuleOrder[k], pw)
    // Otherwise the verdict names a failing rule all of whose predecessors hold.
    ensures v.Broken? ==> exists i :: (0 <= i < |RuleOrder| && RuleOrder[i] == v.rule
      && !Holds(RuleOrder[i], pw) && forall j :: 0 <= j < i ==> Holds(RuleOrder[j], pw))
  {
    assert RuleOrder[0] == MinLength && RuleOrder[1] == HasUppercase && RuleOrder[2] == HasLowercase;
    assert RuleOrder[3] == HasDigit && RuleOrder[4] == HasSpecial;
    if |pw| < MinPasswordLength then Broken(MinLength)
    else if !Search(HasUppercase, pw) then Broken(HasUppercase)
    else if !Search(HasLowercase, pw) then Broken(HasLowercase)
    else if !Search(HasDigit, pw) then Broken(HasDigit)
    else if !Search(HasSpecial, pw) then Broken(HasSpecial)
    else Valid
  }

  /** The message half of the returned pair: empty when valid, one fixed text per rule. */
  function Message(v: Verdict): (m: string)
    ensures m == "" <==> v == Valid
  {
    match v
    case Valid => ""
    case Broken(MinLength) => LengthMessage
    case Broken(HasUppercase) => UppercaseMessage
    case Broken(HasLowercase) => LowercaseMessage
    case Broken(HasDigit) => DigitMessage
    case Broken(HasSpecial) => SpecialMessage
  }

  /** Each rule only asks for "at least so long" or "contains", so appending text never
      breaks one. */
  lemma AppendKeepsRule(r: Rule, pw: string, extra: string)
    requires Holds(r, pw)
    ensures Holds(r, pw + extra)
  {
    if r != MinLength {
      var k :| 0 <= k < |pw| && InClass(r, pw[k]);
      assert (pw + extra)[k] == pw[k];
    }
  }

  /** Appending characters to an accepted password keeps it accepted. */
  lemma AppendKeepsValid(pw: string, extra: string)
    requires ValidatePasswordStrength(pw) == Valid
    ensures ValidatePasswordStrength(pw + extra) == Valid
  {
    forall k | 0 <= k < |RuleOrder| ensures Holds(RuleOrder[k], pw + extra) {
      AppendKeepsRule(RuleOrder[k], pw, extra);
    }
  }

  /** An eight-character password with one character of each class is accepted, and a
      shorter one is refused for its length first. */
  lemma Examples()
    ensures ValidatePasswordStrength("Abcdef1!") == Valid
    ensures ValidatePasswordStrength("Abc1!") == Broken(MinLength)
  {
    var pw := "Abcdef1!";
    assert InClass(HasUppercase, pw[0]) && InClass(HasLowercase, pw[1]);
    assert InClass(HasDigit, pw[6]) && InClass(HasSpecial, pw[7]);
  }

  /** A decoded token payload. */
  type Claims = map<string, Json>

  /** The JWT library keyed with the configured secret and algorithm. `encode` signs a
      payload; `decode` returns the payload of a token whose signature checks out and whose
      `exp` has not passed at the given moment, and `None` where `decode_token` catches a
      `JWTError`. */
  datatype Jwt = Jwt(encode: Claims -> string, decode: (string, int) -> Option<Claims>)

  /** The password hasher: `get_password_hash` and `verify_password`. */
  datatype Passwords = Passwords(hash: string -> string, verify: (string, string) -> bool)

  /** The token lifetimes read from the settings. `Settings` declares the access lifetime
      (a day by default) but not `refresh_token_expire_days`: the refresh lifetime here is the
      one the code evidently intends, and the logins and refreshes as written fail on it. */
  datatype TokenSettings = TokenSettings(accessTokenExpireMinutes: int, refreshTokenExpireDays: int)

  const AccessType := "access"
  const RefreshType := "refresh"

  /** The payload `{"sub": subject, "type": kind, "exp": expires}` of a new token. */
  function TokenClaims(subject: Json, kind: string, expires: int): Claims {
    map["sub" := subject, "type" := JStr(kind), "exp" := JNum(expires as real)]
  }

  /** `create_access_token` with the default lifetime, at moment `now` (in seconds). */
  function CreateAccessToken(jwt: Jwt, settings: TokenSettings, subject: Json, now: int): string {
    jwt.encode(TokenClaims(subject, AccessType, now + settings.accessTokenExpireMinutes * 60))
  }

  /** `create_refresh_token` at moment `now`. */
  function CreateRefreshToken(jwt: Jwt, settings: TokenSettings, subject: Json, now: int): string {
    jwt.encode(TokenClaims(subject, RefreshType, now + settings.refreshTokenExpireDays * 86400))
  }
}
