/** Accounts and their tokens (`backend/app/services/auth_service.py`): registration with
    an optional referral code, login, e-mail verification, password reset, refresh-token
    rotation and logout. Randomness, hashing, signing and the clock are parameters. */
module Auth {
  import opened Wrappers
  import opened Json
  import opened Store
  import Seqs
  import Security
  import Text

  const ReferralCodeLength := 8
  const ReferralAttempts := 5
  const VerificationLifetime: int := 24 * Hour
  const ResetLifetime: int := Hour
  /** The lifetime of a stored refresh-token record, fixed in the service. */
  const RefreshRecordLifetime: int := 7 * Day

  /** One draw of `random.choices` over the 36-character alphabet. */
  type Pick = k: int | 0 <= k < 36

  /** The eight draws behind one referral code. */
  type Draw = s: seq<Pick> | |s| == ReferralCodeLength witness [0, 0, 0, 0, 0, 0, 0, 0]

  predicate IsCodeChar(c: char) {
    'A' <= c <= 'Z' || '0' <= c <= '9'
  }

  /** Position `k` of `string.ascii_uppercase + string.digits`. */
  function CodeChar(k: Pick): (c: char)
    ensures IsCodeChar(c)
  {
    if k < 26 then ('A' as int + k) as char else ('0' as int + (k - 26)) as char
  }

  const Alphabet: string := seq(36, k requires 0 <= k < 36 => CodeChar(k))

  /** The alphabet is the upper-case letters followed by the digits. */
  lemma AlphabetSpelledOut()
    ensures Alphabet == "ABCDEFGHIJKLMNOPQRSTUVWXYZ0123456789"
  {
  }

  /** `_generate_referral_code`: the alphabet characters the draws select. */
  function ReferralCode(d: Draw): (code: string)
    ensures |code| == ReferralCodeLength
    ensures forall k :: 0 <= k < |code| ==> IsCodeChar(code[k])
  {
    seq(|d|, k requires 0 <= k < |d| => CodeChar(d[k]))
  }

  /** Different draws give different codes: no two alphabet positions hold one character. */
  lemma ReferralCodeInjective(a: Draw, b: Draw)
    requires ReferralCode(a) == ReferralCode(b)
    ensures a == b
  {
    forall k | 0 <= k < ReferralCodeLength ensures a[k] == b[k] {
      assert ReferralCode(a)[k] == ReferralCode(b)[k];
      assert CodeChar(a[k]) == CodeChar(b[k]);
    }
  }

  /** `find_unique(where={"referralCode": code})` finds a row. */
  predicate CodeTaken(db: Db, code: string) {
    exists k :: 0 <= k < |db.users| && db.users[k].referralCode == code
  }

  /** The codes of draws `from` up to (not including) `to` are all taken. */
  ghost predicate TakenFrom(db: Db, draw: nat -> Draw, from: nat, to: nat) {
    forall j :: from <= j < to ==> CodeTaken(db, ReferralCode(draw(j)))
  }

  /** The attempts of `generate_unique_referral` from `attempt` on, drawing with `draw`. */
  function TryCodes(db: Db, draw: nat -> Draw, attempt: nat): (r: Result<string, HttpError>)
    requires attempt <= ReferralAttempts
    decreases ReferralAttempts - attempt
    // The first free code among the remaining attempts is returned ...
    ensures r.Success? ==> !CodeTaken(db, r.value) && exists i :: (attempt <= i < ReferralAttempts
      && r.value == ReferralCode(draw(i)) && TakenFrom(db, draw, attempt, i))
    // ... and the service gives up only when every one of them is taken.
    ensures r.Failure? <==> TakenFrom(db, draw, attempt, ReferralAttempts)
    ensures r.Failure? ==> r.error == HttpError(500, ReferralCodeExhausted)
  {
    if attempt == ReferralAttempts then Failure(HttpError(500, ReferralCodeExhausted))
    else
      var code := ReferralCode(draw(attempt));
      if !CodeTaken(db, code) then
        assert TakenFrom(db, draw, attempt, attempt);
        Success(code)
      else
        var r := TryCodes(db, draw, attempt + 1);
        TakenStep(db, draw, attempt, ReferralAttempts);
        if r.Success? then
          FoundAfterTaken(db, draw, attempt, r.value);
          r
        else r
  }

  /** A code found after a taken draw is found after a run that starts one draw earlier. */
  lemma FoundAfterTaken(db: Db, draw: nat -> Draw, attempt: nat, code: string)
    requires CodeTaken(db, ReferralCode(draw(attempt)))
    requires exists i :: (attempt + 1 <= i < ReferralAttempts && code == ReferralCode(draw(i))
      && TakenFrom(db, draw, attempt + 1, i))
    ensures exists i :: (attempt <= i < ReferralAttempts && code == ReferralCode(draw(i))
      && TakenFrom(db, draw, attempt, i))
  {
    var i :| attempt + 1 <= i < ReferralAttempts && code == ReferralCode(draw(i))
      && TakenFrom(db, draw, attempt + 1, i);
    TakenStep(db, draw, attempt, i);
  }

  /** A taken code in front of a run of taken codes makes a longer run. */
  lemma TakenStep(db: Db, draw: nat -> Draw, attempt: nat, to: nat)
    requires attempt < to && CodeTaken(db, ReferralCode(draw(attempt)))
    ensures TakenFrom(db, draw, attempt + 1, to) <==> TakenFrom(db, draw, attempt, to)
  {
  }

  /** `generate_unique_referral`: at most five draws; the first code nobody holds. */
  function GenerateUniqueReferral(db: Db, draw: nat -> Draw): (r: Result<string, HttpError>)
    ensures r.Success? ==> !CodeTaken(db, r.value) && |r.value| == ReferralCodeLength
    ensures r.Success? ==> exists i :: 0 <= i < ReferralAttempts && r.value == ReferralCode(draw(i))
    ensures r.Failure? <==> forall i :: 0 <= i < ReferralAttempts ==> CodeTaken(db, ReferralCode(draw(i)))
    ensures r.Failure? ==> r.error == HttpError(500, ReferralCodeExhausted)
  {
    TryCodes(db, draw, 0)
  }

  /** Row-selection predicates of the lookups the service makes. */
  function EmailIs(email: string): User -> bool {
    (u: User) => u.email == email
  }

  function PhoneIs(phone: string): User -> bool {
    (u: User) => u.phone == Some(phone)
  }

  function ReferralCodeIs(code: string): User -> bool {
    (u: User) => u.referralCode == code
  }

  function UserByEmail(db: Db, email: string): (r: Option<User>)
    ensures r.Some? ==> r.value in db.users && r.value.email == email
    ensures r.None? <==> forall k :: 0 <= k < |db.users| ==> db.users[k].email != email
  {
    Seqs.First(db.users, EmailIs(email))
  }

  datatype Registration = Registration(
    name: string, email: string, password: string, phone: Option<string>, referralCode: Option<string>)

  /** The row `register_user` writes. */
  function NewUser(db: Db, passwords: Security.Passwords, req: Registration, referredById: Option<int>,
                   code: string, verificationToken: string, now: Instant): User
  {
    User(Seqs.NextId(db.users, (u: User) => u.id), req.name, req.email, req.phone, passwords.hash(req.password),
      CustomerRole, code, referredById, false, Some(verificationToken), Some(now + VerificationLifetime),
      None, None, false)
  }

  /** `register_user`. `draw` supplies the referral-code draws, `verificationToken` the
      value of `generate_verification_token`, `now` the clock. */
  function Register(db: Db, passwords: Security.Passwords, req: Registration, draw: nat -> Draw,
                    verificationToken: string, now: Instant): (r: Result<(Db, User), HttpError>)
    // Checks in order: password strength, e-mail, phone (when given), referral code (when given).
    ensures Security.ValidatePasswordStrength(req.password).Broken? ==>
      r == Failure(HttpError(400, WeakPassword(Security.ValidatePasswordStrength(req.password).rule)))
    ensures Security.ValidatePasswordStrength(req.password).Valid? && UserByEmail(db, req.email).Some? ==>
      r == Failure(HttpError(400, EmailTaken))
    ensures r == Failure(HttpError(400, PhoneTaken)) ==>
      Text.Given(req.phone) && Seqs.First(db.users, PhoneIs(req.phone.value)).Some?
    ensures (&& Security.ValidatePasswordStrength(req.password).Valid? && UserByEmail(db, req.email).None?
             && Text.Given(req.phone) && Seqs.First(db.users, PhoneIs(req.phone.value)).Some?) ==>
      r == Failure(HttpError(400, PhoneTaken))
    ensures r == Failure(HttpError(400, InvalidReferralCode)) <==>
      && Security.ValidatePasswordStrength(req.password).Valid?
      && UserByEmail(db, req.email).None?
      && !(Text.Given(req.phone) && Seqs.First(db.users, PhoneIs(req.phone.value)).Some?)
      && Text.Given(req.referralCode) && Seqs.First(db.users, ReferralCodeIs(req.referralCode.value)).None?
    // A new user is an unverified CUSTOMER holding a verification token valid for 24 hours,
    // with a fresh id and referral code, and is appended to the table; nothing else changes.
    ensures r.Success? ==>
      var (db2, u) := r.value;
      && Security.ValidatePasswordStrength(req.password).Valid?
      && db2 == db.(users := db.users + [u])
      && (forall k :: 0 <= k < |db.users| ==> db.users[k].id < u.id && db.users[k].email != u.email)
      && u.email == req.email && u.name == req.name && u.phone == req.phone
      && u.passwordHash == passwords.hash(req.password)
      && u.role == CustomerRole && !u.emailVerified && !u.isBanned
      && u.emailVerificationToken == Some(verificationToken)
      && u.emailVerificationExpires == Some(now + VerificationLifetime)
      && !CodeTaken(db, u.referralCode) && |u.referralCode| == ReferralCodeLength
    // The referrer is the holder of the given code; without a code there is none.
    ensures r.Success? ==> var u := r.value.1;
      if Text.Given(req.referralCode)
      then u.referredById.Some? && exists k :: (0 <= k < |db.users|
        && db.users[k].referralCode == req.referralCode.value && db.users[k].id == u.referredById.value)
      else u.referredById.None?
    // Once all four checks pass, the referral code is drawn and the row inserted.
    ensures ChecksPass(db, req) ==> r == Admit(db, passwords, req, ReferrerId(db, req), draw, verificationToken, now)
  {
    match Security.ValidatePasswordStrength(req.password)
    case Broken(rule) => Failure(HttpError(400, WeakPassword(rule)))
    case Valid =>
      if UserByEmail(db, req.email).Some? then Failure(HttpError(400, EmailTaken))
      else if Text.Given(req.phone) && Seqs.First(db.users, PhoneIs(req.phone.value)).Some? then
        Failure(HttpError(400, PhoneTaken))
      else if Text.Given(req.referralCode) && ReferrerId(db, req).None? then Failure(HttpError(400, InvalidReferralCode))
      else Admit(db, passwords, req, ReferrerId(db, req), draw, verificationToken, now)
  }

  /** The id of the holder of the given referral code; none without a code or a holder. */
  function ReferrerId(db: Db, req: Registration): (r: Option<int>)
    ensures r.Some? <==> Text.Given(req.referralCode) && Seqs.First(db.users, ReferralCodeIs(req.referralCode.value)).Some?
  {
    if Text.Given(req.referralCode) && Seqs.First(db.users, ReferralCodeIs(req.referralCode.value)).Some?
    then Some(Seqs.First(db.users, ReferralCodeIs(req.referralCode.value)).value.id)
    else None
  }

  /** The four checks of `register_user` pass: a strong password, an unused e-mail, an
      unused phone when one is given, and a known referral code when one is given. */
  predicate ChecksPass(db: Db, req: Registration) {
    && Security.ValidatePasswordStrength(req.password).Valid?
    && UserByEmail(db, req.email).None?
    && !(Text.Given(req.phone) && Seqs.First(db.users, PhoneIs(req.phone.value)).Some?)
    && !(Text.Given(req.referralCode) && Seqs.First(db.users, ReferralCodeIs(req.referralCode.value)).None?)
  }

  /** A registration that passes the checks succeeds whenever a free referral code is drawn
      and no row already holds the phone (an empty phone is stored and can still clash). */
  lemma RegisterSucceeds(db: Db, passwords: Security.Passwords, req: Registration, draw: nat -> Draw,
                         verificationToken: string, now: Instant)
    requires ChecksPass(db, req)
    requires exists i :: 0 <= i < ReferralAttempts && !CodeTaken(db, ReferralCode(draw(i)))
    requires req.phone.Some? ==> Seqs.First(db.users, PhoneIs(req.phone.value)).None?
    ensures Register(db, passwords, req, draw, verificationToken, now).Success?
    ensures Register(db, passwords, req, draw, verificationToken, now).value.1.referredById == ReferrerId(db, req)
  {
    var i :| 0 <= i < ReferralAttempts && !CodeTaken(db, ReferralCode(draw(i)));
    assert GenerateUniqueReferral(db, draw).Success?;
  }

  /** The second half of `register_user`, once every check has passed: draw a referral code
      and insert the row. */
  function Admit(db: Db, passwords: Security.Passwords, req: Registration, referredById: Option<int>,
                 draw: nat -> Draw, verificationToken: string, now: Instant): (r: Result<(Db, User), HttpError>)
    requires forall k :: 0 <= k < |db.users| ==> db.users[k].email != req.email
    ensures r.Failure? ==> r.error == HttpError(500, ReferralCodeExhausted) || r.error == HttpError(400, DuplicateContact)
    // The 500 exactly when all five draws are taken; the 400 exactly when a row already holds the phone.
    ensures r == Failure(HttpError(500, ReferralCodeExhausted)) <==> GenerateUniqueReferral(db, draw).Failure?
    ensures r.Success? <==>
      GenerateUniqueReferral(db, draw).Success? && !(req.phone.Some? && Seqs.First(db.users, PhoneIs(req.phone.value)).Some?)
    ensures r.Success? ==>
      var (db2, u) := r.value;
      && db2 == db.(users := db.users + [u])
      && (forall k :: 0 <= k < |db.users| ==> db.users[k].id < u.id && db.users[k].email != u.email)
      && u.email == req.email && u.name == req.name && u.phone == req.phone
      && u.passwordHash == passwords.hash(req.password)
      && u.role == CustomerRole && !u.emailVerified && !u.isBanned
      && u.emailVerificationToken == Some(verificationToken)
      && u.emailVerificationExpires == Some(now + VerificationLifetime)
      && !CodeTaken(db, u.referralCode) && |u.referralCode| == ReferralCodeLength
      && u.referredById == referredById
  {
    var code :- GenerateUniqueReferral(db, draw);
    var u := NewUser(db, passwords, req, referredById, code, verificationToken, now);
    // An empty phone skips the phone check but is stored, so it can still hit the
    // unique constraint, which the service reports as a duplicate e-mail or phone.
    if u.phone.Some? && Seqs.First(db.users, PhoneIs(u.phone.value)).Some? then
      Failure(HttpError(400, DuplicateContact))
    else
      Success((db.(users := db.users + [u]), u))
  }

  /** `login_user`: the tokens carry the user id as text; a refresh-token record valid for
      seven days is stored. */
  function Login(db: Db, passwords: Security.Passwords, jwt: Security.Jwt, settings: Security.TokenSettings,
                 email: string, password: string, now: Instant): (r: Result<(Db, (string, string)), HttpError>)
    // An unknown e-mail and a wrong password are the same 401.
    ensures r == Failure(HttpError(401, LoginFailed)) <==>
      UserByEmail(db, email).None? || !passwords.verify(password, UserByEmail(db, email).value.passwordHash)
    // The ban is only revealed to someone who knows the password.
    ensures r == Failure(HttpError(403, AccountBanned)) <==>
      && UserByEmail(db, email).Some? && passwords.verify(password, UserByEmail(db, email).value.passwordHash)
      && UserByEmail(db, email).value.isBanned
    ensures r.Success? || r == Failure(HttpError(401, LoginFailed)) || r == Failure(HttpError(403, AccountBanned))
    ensures r.Success? ==>
      var u := UserByEmail(db, email).value;
      var subject := JStr(Text.IntToString(u.id));
      && r.value.1 == (Security.CreateAccessToken(jwt, settings, subject, now), Security.CreateRefreshToken(jwt, settings, subject, now))
      && |r.value.0.refreshTokens| == |db.refreshTokens| + 1
      && r.value.0 == db.(refreshTokens := r.value.0.refreshTokens)
      && r.value.0.refreshTokens[..|db.refreshTokens|] == db.refreshTokens
      && var record := r.value.0.refreshTokens[|db.refreshTokens|];
         record.userId == u.id && record.token == r.value.1.1 && record.expiresAt == now + RefreshRecordLifetime
  {
    match UserByEmail(db, email)
    case None => Failure(HttpError(401, LoginFailed))
    case Some(u) =>
      if !passwords.verify(password, u.passwordHash) then Failure(HttpError(401, LoginFailed))
      else if u.isBanned then Failure(HttpError(403, AccountBanned))
      else
        var subject := JStr(Text.IntToString(u.id));
        var access := Security.CreateAccessToken(jwt, settings, subject, now);
        var refresh := Security.CreateRefreshToken(jwt, settings, subject, now);
        var record := RefreshToken(Seqs.NextId(db.refreshTokens, (t: RefreshToken) => t.id), u.id, refresh, now + RefreshRecordLifetime);
        Success((db.(refreshTokens := db.refreshTokens + [record]), (access, refresh)))
  }

  /** `login_user` as written. `create_refresh_token` reads `refresh_token_expire_days`, a
      setting the `Settings` class does not declare, so once the credential and ban checks
      pass the attribute lookup raises and the request ends in a server error before any
      record is stored. */
  function LoginAsWritten(db: Db, passwords: Security.Passwords, email: string, password: string): (r: Result<(Db, (string, string)), HttpError>)
    ensures r.Failure?
    ensures r == Failure(HttpError(500, Unhandled)) <==>
      && UserByEmail(db, email).Some? && passwords.verify(password, UserByEmail(db, email).value.passwordHash)
      && !UserByEmail(db, email).value.isBanned
  {
    match UserByEmail(db, email)
    case None => Failure(HttpError(401, LoginFailed))
    case Some(u) =>
      if !passwords.verify(password, u.passwordHash) then Failure(HttpError(401, LoginFailed))
      else if u.isBanned then Failure(HttpError(403, AccountBanned))
      else Failure(HttpError(500, Unhandled))
  }

  /** The login as written refuses exactly as the intended one does, and turns every
      intended success into the server error: no login ever succeeds. */
  lemma AsWrittenLoginFails(db: Db, passwords: Security.Passwords, jwt: Security.Jwt, settings: Security.TokenSettings,
                            email: string, password: string, now: Instant)
    ensures var intended := Login(db, passwords, jwt, settings, email, password, now);
      && (intended.Failure? ==> LoginAsWritten(db, passwords, email, password) == intended)
      && (intended.Success? ==> LoginAsWritten(db, passwords, email, password) == Failure(HttpError(500, Unhandled)))
  {
  }

  /** The user holds `token` as its e-mail verification token. */
  function HoldsVerification(token: string): User -> bool {
    (u: User) => u.emailVerificationToken == Some(token)
  }

  /** `emailVerificationToken == token and emailVerificationExpires > now`. */
  function VerificationMatches(token: string, now: Instant): User -> bool {
    (u: User) => u.emailVerificationToken == Some(token)
      && u.emailVerificationExpires.Some? && u.emailVerificationExpires.value > now
  }

  /** `verify_email`. */
  function VerifyEmail(db: Db, token: string, now: Instant): (r: Result<Db, HttpError>)
    // Refused exactly when no user holds the token unexpired.
    ensures r.Failure? <==> forall k :: 0 <= k < |db.users| ==> !VerificationMatches(token, now)(db.users[k])
    ensures r.Failure? ==> r.error == HttpError(400, InvalidVerificationLink)
    // The first such user becomes verified and loses the token; only the user table changes.
    ensures r.Success? ==>
      var u := Seqs.First(db.users, VerificationMatches(token, now)).value;
      r.value == UpdateUser(db, u.(emailVerified := true, emailVerificationToken := None, emailVerificationExpires := None))
  {
    match Seqs.First(db.users, VerificationMatches(token, now))
    case None => Failure(HttpError(400, InvalidVerificationLink))
    case Some(u) =>
      Success(UpdateUser(db, u.(emailVerified := true, emailVerificationToken := None, emailVerificationExpires := None)))
  }

  /** At most one row of `users` satisfies `h`. */
  ghost predicate AtMostOne(users: seq<User>, h: User -> bool) {
    forall i, j :: 0 <= i < |users| && 0 <= j < |users| && h(users[i]) && h(users[j]) ==> i == j
  }

  /** A verification token works once: when one user holds it, a second use fails at any time. */
  lemma VerifyEmailSingleUse(db: Db, token: string, now: Instant, later: Instant)
    requires VerifyEmail(db, token, now).Success?
    requires AtMostOne(db.users, HoldsVerification(token))
    ensures VerifyEmail(VerifyEmail(db, token, now).value, token, later) == Failure(HttpError(400, InvalidVerificationLink))
  {
    var i := Seqs.FirstIndex(db.users, VerificationMatches(token, now)).value;
    var u := db.users[i];
    var v := u.(emailVerified := true, emailVerificationToken := None, emailVerificationExpires := None);
    assert HoldsVerification(token)(u) && UserHasId(u.id)(u);
    forall j | 0 <= j < |db.users| && HoldsVerification(token)(db.users[j]) ensures j == i {
    }
    Seqs.ReplaceRetires(db.users, UserHasId(u.id), v, HoldsVerification(token), i);
    var users2 := VerifyEmail(db, token, now).value.users;
    forall k | 0 <= k < |users2| ensures !VerificationMatches(token, later)(users2[k]) {
      assert !HoldsVerification(token)(users2[k]);
    }
  }

  /** `resend_verification_email`: a new token, valid for 24 hours, replaces the old one. */
  function ResendVerificationEmail(db: Db, email: string, verificationToken: string, now: Instant): (r: Result<Db, HttpError>)
    ensures UserByEmail(db, email).None? <==> r == Failure(HttpError(404, UserNotFound))
    ensures r == Failure(HttpError(400, AlreadyVerified)) <==>
      UserByEmail(db, email).Some? && UserByEmail(db, email).value.emailVerified
    ensures r.Success? <==> UserByEmail(db, email).Some? && !UserByEmail(db, email).value.emailVerified
    ensures r.Success? ==> r.value == db.(users := r.value.users)
    // The account's row now holds the new token, valid for 24 hours, in place of the old one.
    ensures r.Success? ==>
      UserByEmail(r.value, email) == Some(UserByEmail(db, email).value.(
        emailVerificationToken := Some(verificationToken), emailVerificationExpires := Some(now + VerificationLifetime)))
  {
    match UserByEmail(db, email)
    case None => Failure(HttpError(404, UserNotFound))
    case Some(u) =>
      if u.emailVerified then Failure(HttpError(400, AlreadyVerified))
      else
        var v := u.(emailVerificationToken := Some(verificationToken), emailVerificationExpires := Some(now + VerificationLifetime));
        RewrittenByEmail(db, email, v);
        Success(UpdateUser(db, v))
  }

  /** Writing back, by id, the row an address lookup finds keeps the lookup finding it. */
  lemma RewrittenByEmail(db: Db, email: string, v: User)
    requires UserByEmail(db, email).Some? && v.id == UserByEmail(db, email).value.id && v.email == email
    ensures UserByEmail(UpdateUser(db, v), email) == Some(v)
  {
    Seqs.ReplaceFirstMatch(db.users, UserHasId(v.id), EmailIs(email), v);
  }

  /** A row written back by id is in the table afterwards. */
  lemma UpdatedUserPresent(db: Db, u: User, v: User)
    requires u in db.users && v.id == u.id
    ensures exists k :: 0 <= k < |UpdateUser(db, v).users| && UpdateUser(db, v).users[k] == v
  {
    var k :| 0 <= k < |db.users| && db.users[k] == u;
    assert UserHasId(v.id)(db.users[k]);
    assert UpdateUser(db, v).users[k] == v;
  }

  /** The token a resend mails out verifies the address during the next 24 hours. */
  lemma ResendThenVerify(db: Db, email: string, verificationToken: string, now: Instant, later: Instant)
    requires ResendVerificationEmail(db, email, verificationToken, now).Success?
    requires later < now + VerificationLifetime
    ensures VerifyEmail(ResendVerificationEmail(db, email, verificationToken, now).value, verificationToken, later).Success?
  {
    var u := UserByEmail(db, email).value;
    var v := u.(emailVerificationToken := Some(verificationToken), emailVerificationExpires := Some(now + VerificationLifetime));
    UpdatedUserPresent(db, u, v);
    var users2 := ResendVerificationEmail(db, email, verificationToken, now).value.users;
    var k :| 0 <= k < |users2| && users2[k] == v;
    assert VerificationMatches(verificationToken, later)(users2[k]);
  }

  /** The token mailed at registration verifies the new address during the next 24 hours. */
  lemma RegisterThenVerify(db: Db, passwords: Security.Passwords, req: Registration, draw: nat -> Draw,
                           verificationToken: string, now: Instant, later: Instant)
    requires Register(db, passwords, req, draw, verificationToken, now).Success?
    requires later < now + VerificationLifetime
    ensures VerifyEmail(Register(db, passwords, req, draw, verificationToken, now).value.0, verificationToken, later).Success?
  {
    var (db2, u) := Register(db, passwords, req, draw, verificationToken, now).value;
    assert db2.users[|db.users|] == u;
    assert VerificationMatches(verificationToken, later)(db2.users[|db.users|]);
  }

  /** `request_password_reset`: an unknown address changes nothing (and is not revealed);
      a known one gets a reset token valid for one hour. */
  function RequestPasswordReset(db: Db, email: string, resetToken: string, now: Instant): (r: Db)
    ensures UserByEmail(db, email).None? ==> r == db
    ensures r == db.(users := r.users) && |r.users| == |db.users|
    // A known address's row now holds the reset token, valid for one hour.
    ensures UserByEmail(db, email).Some? ==>
      UserByEmail(r, email) == Some(UserByEmail(db, email).value.(
        passwordResetToken := Some(resetToken), passwordResetExpires := Some(now + ResetLifetime)))
  {
    match UserByEmail(db, email)
    case None => db
    case Some(u) =>
      var v := u.(passwordResetToken := Some(resetToken), passwordResetExpires := Some(now + ResetLifetime));
      RewrittenByEmail(db, email, v);
      UpdateUser(db, v)
  }

  function HoldsReset(token: string): User -> bool {
    (u: User) => u.passwordResetToken == Some(token)
  }

  /** `passwordResetToken == token and passwordResetExpires > now`. */
  function ResetMatches(token: string, now: Instant): User -> bool {
    (u: User) => u.passwordResetToken == Some(token)
      && u.passwordResetExpires.Some? && u.passwordResetExpires.value > now
  }

  /** `reset_password`. */
  function ResetPassword(db: Db, passwords: Security.Passwords, token: string, newPassword: string, now: Instant): (r: Result<Db, HttpError>)
    // The new password's strength is checked before the token.
    ensures Security.ValidatePasswordStrength(newPassword).Broken? ==>
      r == Failure(HttpError(400, WeakPassword(Security.ValidatePasswordStrength(newPassword).rule)))
    ensures r == Failure(HttpError(400, InvalidResetLink)) <==>
      Security.ValidatePasswordStrength(newPassword).Valid?
      && forall k :: 0 <= k < |db.users| ==> !ResetMatches(token, now)(db.users[k])
    // The first holder of the unexpired token gets the new hash and loses the token.
    ensures r.Success? ==>
      var u := Seqs.First(db.users, ResetMatches(token, now)).value;
      r.value == UpdateUser(db, u.(passwordHash := passwords.hash(newPassword), passwordResetToken := None, passwordResetExpires := None))
  {
    match Security.ValidatePasswordStrength(newPassword)
    case Broken(rule) => Failure(HttpError(400, WeakPassword(rule)))
    case Valid =>
      match Seqs.First(db.users, ResetMatches(token, now))
      case None => Failure(HttpError(400, InvalidResetLink))
      case Some(u) =>
        Success(UpdateUser(db, u.(passwordHash := passwords.hash(newPassword), passwordResetToken := None, passwordResetExpires := None)))
  }

  /** A reset token works once: when one user holds it, a second reset with it fails. */
  lemma ResetSingleUse(db: Db, passwords: Security.Passwords, token: string, pw: string, now: Instant, pw2: string, later: Instant)
    requires ResetPassword(db, passwords, token, pw, now).Success?
    requires AtMostOne(db.users, HoldsReset(token))
    requires Security.ValidatePasswordStrength(pw2).Valid?
    ensures ResetPassword(ResetPassword(db, passwords, token, pw, now).value, passwords, token, pw2, later)
      == Failure(HttpError(400, InvalidResetLink))
  {
    var i := Seqs.FirstIndex(db.users, ResetMatches(token, now)).value;
    var u := db.users[i];
    var v := u.(passwordHash := passwords.hash(pw), passwordResetToken := None, passwordResetExpires := None);
    assert HoldsReset(token)(u) && UserHasId(u.id)(u);
    forall j | 0 <= j < |db.users| && HoldsReset(token)(db.users[j]) ensures j == i {
    }
    Seqs.ReplaceRetires(db.users, UserHasId(u.id), v, HoldsReset(token), i);
    var users2 := ResetPassword(db, passwords, token, pw, now).value.users;
    forall k | 0 <= k < |users2| ensures !ResetMatches(token, later)(users2[k]) {
      assert !HoldsReset(token)(users2[k]);
    }
  }

  /** The token a reset request mails out lets a strong new password be set within the hour. */
  lemma RequestThenReset(db: Db, passwords: Security.Passwords, email: string, resetToken: string, now: Instant,
                         newPassword: string, later: Instant)
    requires UserByEmail(db, email).Some?
    requires Security.ValidatePasswordStrength(newPassword).Valid?
    requires later < now + ResetLifetime
    ensures ResetPassword(RequestPasswordReset(db, email, resetToken, now), passwords, resetToken, newPassword, later).Success?
  {
    var u := UserByEmail(db, email).value;
    var v := u.(passwordResetToken := Some(resetToken), passwordResetExpires := Some(now + ResetLifetime));
    UpdatedUserPresent(db, u, v);
    var users2 := RequestPasswordReset(db, email, resetToken, now).users;
    var k :| 0 <= k < |users2| && users2[k] == v;
    assert ResetMatches(resetToken, later)(users2[k]);
  }

  /** `token == t and userId == userId and expiresAt > now`. */
  function RecordMatches(token: string, userId: int, now: Instant): RefreshToken -> bool {
    (t: RefreshToken) => t.token == token && t.userId == userId && t.expiresAt > now
  }

  function RecordHasId(id: int): RefreshToken -> bool {
    (t: RefreshToken) => t.id == id
  }

  function HoldsRecord(token: string): RefreshToken -> bool {
    (t: RefreshToken) => t.token == token
  }

  /** `refresh_access_token`: the new tokens carry the old token's `sub` unchanged, and the
      stored record is rotated to the new refresh token for another seven days. */
  function RefreshAccessToken(db: Db, jwt: Security.Jwt, settings: Security.TokenSettings,
                              refreshToken: string, now: Instant): (r: Result<(Db, (string, string)), HttpError>)
    // Anything but a decodable refresh token is a 401, access tokens included.
    ensures (jwt.decode(refreshToken, now).None? ||
             Get(jwt.decode(refreshToken, now).value, "type") != JStr(Security.RefreshType)) ==>
      r == Failure(HttpError(401, InvalidToken))
    // A token not on record (or whose record has expired or belongs to another user) is a 401.
    ensures r.Success? ==>
      var claims := jwt.decode(refreshToken, now).value;
      var sub := Get(claims, "sub");
      && Get(claims, "type") == JStr(Security.RefreshType) && Truthy(sub) && PyInt(sub).Some?
      && (exists k :: 0 <= k < |db.refreshTokens| && RecordMatches(refreshToken, PyInt(sub).value, now)(db.refreshTokens[k]))
      && r.value.1 == (Security.CreateAccessToken(jwt, settings, sub, now), Security.CreateRefreshToken(jwt, settings, sub, now))
      && r.value.0 == db.(refreshTokens := r.value.0.refreshTokens)
    // The first live record for the token is rewritten, by id, to the new token for seven more days.
    ensures r.Success? ==>
      var rec := Seqs.First(db.refreshTokens, RecordMatches(refreshToken, PyInt(Get(jwt.decode(refreshToken, now).value, "sub")).value, now)).value;
      r.value.0.refreshTokens == Seqs.Replace(db.refreshTokens, RecordHasId(rec.id), rec.(token := r.value.1.1, expiresAt := now + RefreshRecordLifetime))
    ensures r == Failure(HttpError(401, TokenExpired)) ==>
      var claims := jwt.decode(refreshToken, now).value;
      && PyInt(Get(claims, "sub")).Some?
      && forall k :: 0 <= k < |db.refreshTokens| ==> !RecordMatches(refreshToken, PyInt(Get(claims, "sub")).value, now)(db.refreshTokens[k])
  {
    var payload := jwt.decode(refreshToken, now);
    if payload.None? || Get(payload.value, "type") != JStr(Security.RefreshType) then Failure(HttpError(401, InvalidToken))
    else
      var sub := Get(payload.value, "sub");
      if !Truthy(sub) then Failure(HttpError(401, InvalidToken))
      else match PyInt(sub)
        case None => Failure(HttpError(500, Unhandled))
        case Some(userId) =>
          match Seqs.First(db.refreshTokens, RecordMatches(refreshToken, userId, now))
          case None => Failure(HttpError(401, TokenExpired))
          case Some(record) =>
            var access := Security.CreateAccessToken(jwt, settings, sub, now);
            var refresh := Security.CreateRefreshToken(jwt, settings, sub, now);
            var rotated := record.(token := refresh, expiresAt := now + RefreshRecordLifetime);
            Success((db.(refreshTokens := Seqs.Replace(db.refreshTokens, RecordHasId(record.id), rotated)), (access, refresh)))
  }

  /** `refresh_access_token` as written: once a live record for the token is found,
      `create_refresh_token` raises on the undeclared `refresh_token_expire_days` setting and
      the request ends in a server error; the record is not rotated. */
  function RefreshAccessTokenAsWritten(db: Db, jwt: Security.Jwt, refreshToken: string, now: Instant): (r: Result<(Db, (string, string)), HttpError>)
    ensures r.Failure?
    ensures (jwt.decode(refreshToken, now).None? ||
             Get(jwt.decode(refreshToken, now).value, "type") != JStr(Security.RefreshType)) ==>
      r == Failure(HttpError(401, InvalidToken))
  {
    var payload := jwt.decode(refreshToken, now);
    if payload.None? || Get(payload.value, "type") != JStr(Security.RefreshType) then Failure(HttpError(401, InvalidToken))
    else
      var sub := Get(payload.value, "sub");
      if !Truthy(sub) then Failure(HttpError(401, InvalidToken))
      else match PyInt(sub)
        case None => Failure(HttpError(500, Unhandled))
        case Some(userId) =>
          if Seqs.First(db.refreshTokens, RecordMatches(refreshToken, userId, now)).None? then Failure(HttpError(401, TokenExpired))
          else Failure(HttpError(500, Unhandled))
  }

  /** The refresh as written refuses exactly as the intended one does, and turns every
      intended rotation into the server error. */
  lemma AsWrittenRefreshFails(db: Db, jwt: Security.Jwt, settings: Security.TokenSettings, refreshToken: string, now: Instant)
    ensures var intended := RefreshAccessToken(db, jwt, settings, refreshToken, now);
      && (intended.Failure? ==> RefreshAccessTokenAsWritten(db, jwt, refreshToken, now) == intended)
      && (intended.Success? ==> RefreshAccessTokenAsWritten(db, jwt, refreshToken, now) == Failure(HttpError(500, Unhandled)))
  {
  }

  /** Rotation retires the presented token: when one record held it and the new token
      differs, the old token can never be refreshed again. */
  lemma RotationRetiresToken(db: Db, jwt: Security.Jwt, settings: Security.TokenSettings, token: string, now: Instant, later: Instant)
    requires RefreshAccessToken(db, jwt, settings, token, now).Success?
    requires RefreshAccessToken(db, jwt, settings, token, now).value.1.1 != token
    requires forall i, j :: (0 <= i < |db.refreshTokens| && 0 <= j < |db.refreshTokens|
      && HoldsRecord(token)(db.refreshTokens[i]) && HoldsRecord(token)(db.refreshTokens[j])) ==> i == j
    ensures RefreshAccessToken(RefreshAccessToken(db, jwt, settings, token, now).value.0, jwt, settings, token, later).Failure?
  {
    var claims := jwt.decode(token, now).value;
    var userId := PyInt(Get(claims, "sub")).value;
    var p := RecordMatches(token, userId, now);
    var i := Seqs.FirstIndex(db.refreshTokens, p).value;
    var record := db.refreshTokens[i];
    var refresh := RefreshAccessToken(db, jwt, settings, token, now).value.1.1;
    var rotated := record.(token := refresh, expiresAt := now + RefreshRecordLifetime);
    assert HoldsRecord(token)(record) && RecordHasId(record.id)(record);
    Seqs.ReplaceRetires(db.refreshTokens, RecordHasId(record.id), rotated, HoldsRecord(token), i);
    var db2 := RefreshAccessToken(db, jwt, settings, token, now).value.0;
    assert db2.refreshTokens == Seqs.Replace(db.refreshTokens, RecordHasId(record.id), rotated);
    var claims2 := jwt.decode(token, later);
    if claims2.Some? && PyInt(Get(claims2.value, "sub")).Some? {
      var uid2 := PyInt(Get(claims2.value, "sub")).value;
      forall k | 0 <= k < |db2.refreshTokens| ensures !RecordMatches(token, uid2, later)(db2.refreshTokens[k]) {
        assert !HoldsRecord(token)(db2.refreshTokens[k]);
      }
    }
  }

  /** `logout`: every record holding the token is deleted. */
  function Logout(db: Db, refreshToken: string): (r: Db)
    ensures r == db.(refreshTokens := r.refreshTokens)
    ensures forall k :: 0 <= k < |r.refreshTokens| ==> r.refreshTokens[k].token != refreshToken
    ensures forall k :: 0 <= k < |db.refreshTokens| && db.refreshTokens[k].token != refreshToken ==>
      db.refreshTokens[k] in r.refreshTokens
  {
    db.(refreshTokens := Seqs.Filter(db.refreshTokens, (t: RefreshToken) => t.token != refreshToken))
  }

  /** After logout the token cannot be refreshed. */
  lemma LogoutRevokes(db: Db, jwt: Security.Jwt, settings: Security.TokenSettings, token: string, now: Instant)
    ensures RefreshAccessToken(Logout(db, token), jwt, settings, token, now).Failure?
  {
    var db2 := Logout(db, token);
    var claims := jwt.decode(token, now);
    if claims.Some? && PyInt(Get(claims.value, "sub")).Some? {
      var uid := PyInt(Get(claims.value, "sub")).value;
      forall k | 0 <= k < |db2.refreshTokens| ensures !RecordMatches(token, uid, now)(db2.refreshTokens[k]) {
      }
    }
  }

  /** The refresh token a login hands out is accepted for seven days, as long as the JWT
      library still decodes it to the payload it was signed with. */
  lemma LoginThenRefresh(db: Db, passwords: Security.Passwords, jwt: Security.Jwt, settings: Security.TokenSettings,
                         email: string, password: string, now: Instant, later: Instant)
    requires Login(db, passwords, jwt, settings, email, password, now).Success?
    requires later < now + RefreshRecordLifetime
    requires var u := UserByEmail(db, email).value;
      var subject := JStr(Text.IntToString(u.id));
      jwt.decode(Security.CreateRefreshToken(jwt, settings, subject, now), later) ==
        Some(Security.TokenClaims(subject, Security.RefreshType, now + settings.refreshTokenExpireDays * 86400))
    ensures var (db2, tokens) := Login(db, passwords, jwt, settings, email, password, now).value;
      RefreshAccessToken(db2, jwt, settings, tokens.1, later).Success?
  {
    var u := UserByEmail(db, email).value;
    var subject := JStr(Text.IntToString(u.id));
    var (db2, tokens) := Login(db, passwords, jwt, settings, email, password, now).value;
    var claims := jwt.decode(tokens.1, later).value;
    assert Get(claims, "type") == JStr(Security.RefreshType);
    assert Get(claims, "sub") == subject;
    assert PyInt(subject) == Some(u.id) by {
      Text.IntToStringRoundTrip(u.id);
      Text.IntToStringTrimmed(u.id);
    }
    var k := |db.refreshTokens|;
    assert k < |db2.refreshTokens| && RecordMatches(tokens.1, u.id, later)(db2.refreshTokens[k]);
    RefreshAccepts(db2, jwt, settings, tokens.1, later, u.id, k);
  }

  /** The refresh token a rotation hands out is itself accepted for seven days, as long as
      the JWT library still decodes it to the payload it was signed with. */
  lemma RefreshThenRefresh(db: Db, jwt: Security.Jwt, settings: Security.TokenSettings,
                           token: string, now: Instant, later: Instant)
    requires RefreshAccessToken(db, jwt, settings, token, now).Success?
    requires later < now + RefreshRecordLifetime
    requires var sub := Get(jwt.decode(token, now).value, "sub");
      jwt.decode(Security.CreateRefreshToken(jwt, settings, sub, now), later) ==
        Some(Security.TokenClaims(sub, Security.RefreshType, now + settings.refreshTokenExpireDays * 86400))
    ensures var (db2, tokens) := RefreshAccessToken(db, jwt, settings, token, now).value;
      RefreshAccessToken(db2, jwt, settings, tokens.1, later).Success?
  {
    var sub := Get(jwt.decode(token, now).value, "sub");
    var userId := PyInt(sub).value;
    var (db2, tokens) := RefreshAccessToken(db, jwt, settings, token, now).value;
    var p := RecordMatches(token, userId, now);
    var i := Seqs.FirstIndex(db.refreshTokens, p).value;
    var rec := db.refreshTokens[i];
    var rotated := rec.(token := tokens.1, expiresAt := now + RefreshRecordLifetime);
    assert RecordHasId(rec.id)(db.refreshTokens[i]);
    assert db2.refreshTokens[i] == rotated;
    assert Get(jwt.decode(tokens.1, later).value, "sub") == sub;
    assert RecordMatches(tokens.1, userId, later)(db2.refreshTokens[i]);
    RefreshAccepts(db2, jwt, settings, tokens.1, later, userId, i);
  }

  /** A decodable refresh token whose subject names a user with a live record is accepted. */
  lemma RefreshAccepts(db: Db, jwt: Security.Jwt, settings: Security.TokenSettings,
                       token: string, now: Instant, userId: int, k: nat)
    requires jwt.decode(token, now).Some?
    requires Get(jwt.decode(token, now).value, "type") == JStr(Security.RefreshType)
    requires Truthy(Get(jwt.decode(token, now).value, "sub"))
    requires PyInt(Get(jwt.decode(token, now).value, "sub")) == Some(userId)
    requires k < |db.refreshTokens| && RecordMatches(token, userId, now)(db.refreshTokens[k])
    ensures RefreshAccessToken(db, jwt, settings, token, now).Success?
  {
  }

  /** A fresh account can log in with the password it registered with, as long as the
      hasher accepts its own hash. */
  lemma RegisterThenLogin(db: Db, passwords: Security.Passwords, req: Registration, draw: nat -> Draw,
                          verificationToken: string, now: Instant, jwt: Security.Jwt, settings: Security.TokenSettings, later: Instant)
    requires Register(db, passwords, req, draw, verificationToken, now).Success?
    requires passwords.verify(req.password, passwords.hash(req.password))
    ensures Login(Register(db, passwords, req, draw, verificationToken, now).value.0, passwords, jwt, settings, req.email, req.password, later).Success?
  {
    var (db2, u) := Register(db, passwords, req, draw, verificationToken, now).value;
    var i := |db.users|;
    assert db2.users[i] == u && EmailIs(req.email)(db2.users[i]);
  }
}
