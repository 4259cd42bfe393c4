/** Account registration, login and one-time-password flows
    (src/services/auth.service.ts). Password hashing and comparison, token
    signing, the random draw behind each code, the clock, and the outcome of
    sending mail or SMS are parameters. */
module AuthService {
  import opened Common
  import opened Text
  import opened ErrorHandler
  import opened Accounts
  import opened Otp

  const EmailTakenText: string := "Email already registered"
  const InvalidCredentialsText: string := "Invalid credentials"
  const NotVerifiedText: string := "Email not verified"
  /** What the `bcryptjs` package's comparison throws for a null hash. */
  const NullHashText: string := "Illegal arguments: string, object"
  const UserNotFoundText: string := "User not found"
  const InvalidOtpText: string := "Invalid OTP"
  const OtpExpiredText: string := "OTP expired"
  const MailFailedText: string := "Failed to send verification email. Please try again later."

  /** The answer of a service call and the user table after it. */
  datatype AuthOutcome<T> = AuthOutcome(result: Result<T, AppError>, db: Users)

  datatype Session = Session(token: string, user: User)

  /** The expiry instant `otpExpiry()` gives when the clock reads `now`. */
  function FreshExpiry(now: int): int {
    OtpExpiry(now, DefaultMinutes)
  }

  /** `register`. `hashed` is `hashPassword(password)`; `mail` is the error
      the mailer raises, if any. The row is created before the mail is sent
      and stays when sending fails. */
  function Register(db: Users, email: string, fullname: string, hashed: string, draw: nat, now: int,
                    mail: Option<AppError>): (r: AuthOutcome<User>)
    requires draw < 10000
    ensures FindByEmail(db, email).Some? <==> r == AuthOutcome(Err(Fail(EmailTakenText)), db)
    ensures FindByEmail(db, email).None? ==>
      && |r.db.rows| == |db.rows| + 1 && r.db.rows[..|db.rows|] == db.rows
      && var u := r.db.rows[|db.rows|];
      && u.email == email && u.fullname == Some(fullname) && u.password == Some(hashed)
      && u.emailOTP == Some(GenerateDefaultOtp(draw)) && u.otpExpiresAt == Some(FreshExpiry(now))
      && !u.emailVerified && u.id == db.nextId
      && (mail.None? ==> r.result == Ok(u))
      && (mail.Some? ==> r.result == Err(mail.value))
  {
    if FindByEmail(db, email).Some? then AuthOutcome(Err(Fail(EmailTakenText)), db)
    else
      var u := NewUser(db, email, Some(fullname), now).(password := Some(hashed),
        emailOTP := Some(GenerateDefaultOtp(draw)), otpExpiresAt := Some(FreshExpiry(now)));
      var db' := Insert(db, u);
      match mail
      case None => AuthOutcome(Ok(u), db')
      case Some(e) => AuthOutcome(Err(e), db')
  }

  lemma RegisterKeepsValid(db: Users, email: string, fullname: string, hashed: string, draw: nat, now: int,
                           mail: Option<AppError>)
    requires Valid(db) && draw < 10000
    ensures Valid(Register(db, email, fullname, hashed, draw, now, mail).db)
  {
    if FindByEmail(db, email).None? {
      var u := NewUser(db, email, Some(fullname), now).(password := Some(hashed),
        emailOTP := Some(GenerateDefaultOtp(draw)), otpExpiresAt := Some(FreshExpiry(now)));
      InsertKeepsValid(db, u);
    }
  }

  /** `login`. `matches(password, hash)` is `comparePassword`; `sign` is
      `signToken`, applied to `{ id }` only. An account created by a Google
      sign-in has no hash, and the comparison throws on the null hash
      before it compares anything. The table is never changed. */
  function Login(db: Users, email: string, password: string, matches: (string, string) -> bool,
                 sign: Claims -> string): (r: Result<Session, AppError>)
    ensures FindByEmail(db, email).None? ==> r == Err(Fail(InvalidCredentialsText))
    ensures FindByEmail(db, email).Some? && db.rows[FindByEmail(db, email).value].password.None? ==>
      r == Err(Fail(NullHashText))
    ensures r.Ok? ==> (FindByEmail(db, email).Some? &&
      var u := db.rows[FindByEmail(db, email).value];
      && u.password.Some? && matches(password, u.password.value) && u.emailVerified
      && r.value == Session(sign(LoginClaims(u)), u))
  {
    match FindByEmail(db, email)
    case None => Err(Fail(InvalidCredentialsText))
    case Some(i) =>
      var u := db.rows[i];
      if u.password.None? then Err(Fail(NullHashText))
      else if !matches(password, u.password.value) then Err(Fail(InvalidCredentialsText))
      else if !u.emailVerified then Err(Fail(NotVerifiedText))
      else Ok(Session(sign(LoginClaims(u)), u))
  }

  /** An account with a hash answers an unknown email and a wrong password
      alike, and "Email not verified" is only ever given to a caller who
      knew the password. */
  lemma LoginCheckOrder(db: Users, email: string, password: string, matches: (string, string) -> bool,
                        sign: Claims -> string)
    ensures var r := Login(db, email, password, matches, sign);
      && (r == Err(Fail(NotVerifiedText)) <==>
            FindByEmail(db, email).Some? && db.rows[FindByEmail(db, email).value].password.Some?
            && matches(password, db.rows[FindByEmail(db, email).value].password.value)
            && !db.rows[FindByEmail(db, email).value].emailVerified)
      && (r == Err(Fail(InvalidCredentialsText)) <==>
            || FindByEmail(db, email).None?
            || (db.rows[FindByEmail(db, email).value].password.Some?
                && !matches(password, db.rows[FindByEmail(db, email).value].password.value)))
  {
  }

  /** The code check shared by email verification and password reset:
      unknown user, then a code that differs from the stored one, then an
      expired code (strictly before `now`), in that order. */
  function CheckEmailOtp(db: Users, email: string, otp: Option<string>, now: int): (r: Result<nat, AppError>)
    ensures r.Ok? ==> FindByEmail(db, email) == Some(r.value)
    ensures FindByEmail(db, email).None? <==> r == Err(Fail(UserNotFoundText))
    ensures r.Ok? <==> (FindByEmail(db, email).Some? &&
      db.rows[FindByEmail(db, email).value].emailOTP == otp &&
      !Expired(db.rows[FindByEmail(db, email).value].otpExpiresAt, now))
  {
    match FindByEmail(db, email)
    case None => Err(Fail(UserNotFoundText))
    case Some(i) =>
      var u := db.rows[i];
      if u.emailOTP != otp then Err(Fail(InvalidOtpText))
      else if Expired(u.otpExpiresAt, now) then Err(Fail(OtpExpiredText))
      else Ok(i)
  }

  /** A wrong code is reported as wrong even when it has also expired, and a
      right code is accepted at the very instant of expiry. */
  lemma OtpCheckOrder(db: Users, email: string, otp: Option<string>, now: int)
    requires FindByEmail(db, email).Some?
    ensures var u := db.rows[FindByEmail(db, email).value];
      && (u.emailOTP != otp ==> CheckEmailOtp(db, email, otp, now) == Err(Fail(InvalidOtpText)))
      && (u.emailOTP == otp && u.otpExpiresAt == Some(now) ==> CheckEmailOtp(db, email, otp, now).Ok?)
      && (u.emailOTP == otp && u.otpExpiresAt == Some(now - 1) ==>
            CheckEmailOtp(db, email, otp, now) == Err(Fail(OtpExpiredText)))
  {
  }

  /** `verifyEmailOTP`. */
  function VerifyEmailOtp(db: Users, email: string, otp: Option<string>, now: int): (r: AuthOutcome<User>)
    ensures CheckEmailOtp(db, email, otp, now).Err? ==>
      r == AuthOutcome(Err(CheckEmailOtp(db, email, otp, now).error), db)
    ensures CheckEmailOtp(db, email, otp, now).Ok? ==>
      var i := CheckEmailOtp(db, email, otp, now).value;
      var u := db.rows[i].(emailVerified := true, emailOTP := None, otpExpiresAt := None);
      r == AuthOutcome(Ok(u), db.(rows := db.rows[i := u]))
  {
    match CheckEmailOtp(db, email, otp, now)
    case Err(e) => AuthOutcome(Err(e), db)
    case Ok(i) =>
      var u := db.rows[i].(emailVerified := true, emailOTP := None, otpExpiresAt := None);
      AuthOutcome(Ok(u), db.(rows := db.rows[i := u]))
  }

  /** After a successful verification the code is spent: submitting the same
      code again is refused as invalid. */
  lemma VerifiedCodeIsSpent(db: Users, email: string, code: string, now: int, later: int)
    requires Valid(db)
    requires VerifyEmailOtp(db, email, Some(code), now).result.Ok?
    ensures var db1 := VerifyEmailOtp(db, email, Some(code), now).db;
      && Valid(db1)
      && db1.rows[FindByEmail(db, email).value].emailVerified
      && VerifyEmailOtp(db1, email, Some(code), later) == AuthOutcome(Err(Fail(InvalidOtpText)), db1)
  {
    var i := FindByEmail(db, email).value;
    var db1 := VerifyEmailOtp(db, email, Some(code), now).db;
    ReplaceKeepsValid(db, i, db1.rows[i]);
    FindByEmailUnique(db1, email, i);
  }

  /** `handleForgotPassword`: a fresh code and expiry replace the old ones
      before the mail is sent; a mail failure is reported but the new code
      stays. */
  function HandleForgotPassword(db: Users, email: string, draw: nat, now: int, mailSent: bool): (r: AuthOutcome<bool>)
    requires draw < 10000
    ensures FindByEmail(db, email).None? ==> r == AuthOutcome(Err(Fail(UserNotFoundText)), db)
    ensures FindByEmail(db, email).Some? ==>
      var i := FindByEmail(db, email).value;
      && r.db == db.(rows := db.rows[i := db.rows[i].(emailOTP := Some(GenerateDefaultOtp(draw)),
                                                       otpExpiresAt := Some(FreshExpiry(now)))])
      && r.result == (if mailSent then Ok(true) else Err(Fail(MailFailedText)))
  {
    match FindByEmail(db, email)
    case None => AuthOutcome(Err(Fail(UserNotFoundText)), db)
    case Some(i) =>
      var u := db.rows[i].(emailOTP := Some(GenerateDefaultOtp(draw)), otpExpiresAt := Some(FreshExpiry(now)));
      AuthOutcome(if mailSent then Ok(true) else Err(Fail(MailFailedText)), db.(rows := db.rows[i := u]))
  }

  /** A new code invalidates every earlier one: any code other than the
      newly issued one is refused as invalid, and the new one is accepted
      for ten minutes. */
  lemma ForgotPasswordReplacesCode(db: Users, email: string, draw: nat, now: int, mailSent: bool,
                                   earlier: string, later: int)
    requires Valid(db) && draw < 10000
    requires FindByEmail(db, email).Some?
    requires earlier != GenerateDefaultOtp(draw)
    ensures var db1 := HandleForgotPassword(db, email, draw, now, mailSent).db;
      && CheckEmailOtp(db1, email, Some(earlier), later) == Err(Fail(InvalidOtpText))
      && (later <= now + 600000 ==> CheckEmailOtp(db1, email, Some(GenerateDefaultOtp(draw)), later).Ok?)
  {
    var i := FindByEmail(db, email).value;
    var db1 := HandleForgotPassword(db, email, draw, now, mailSent).db;
    ReplaceKeepsValid(db, i, db1.rows[i]);
    FindByEmailUnique(db1, email, i);
  }

  /** `resetPassword`: the same checks as verification; on success the hash
      is replaced and the code and expiry cleared, nothing else changes —
      in particular `emailVerified` keeps its value. */
  function ResetPassword(db: Users, email: string, otp: Option<string>, hashed: string, now: int): (r: AuthOutcome<User>)
    ensures CheckEmailOtp(db, email, otp, now).Err? ==>
      r == AuthOutcome(Err(CheckEmailOtp(db, email, otp, now).error), db)
    ensures CheckEmailOtp(db, email, otp, now).Ok? ==>
      var i := CheckEmailOtp(db, email, otp, now).value;
      var u := db.rows[i].(password := Some(hashed), emailOTP := None, otpExpiresAt := None);
      && r == AuthOutcome(Ok(u), db.(rows := db.rows[i := u]))
      && u.emailVerified == db.rows[i].emailVerified
  {
    match CheckEmailOtp(db, email, otp, now)
    case Err(e) => AuthOutcome(Err(e), db)
    case Ok(i) =>
      var u := db.rows[i].(password := Some(hashed), emailOTP := None, otpExpiresAt := None);
      AuthOutcome(Ok(u), db.(rows := db.rows[i := u]))
  }

  /** A successful reset makes the new password, and only a password the
      hash accepts, good for login (for a verified account). */
  lemma ResetThenLogin(db: Users, email: string, otp: Option<string>, hashed: string, now: int,
                       password: string, matches: (string, string) -> bool, sign: Claims -> string)
    requires Valid(db)
    requires ResetPassword(db, email, otp, hashed, now).result.Ok?
    requires db.rows[FindByEmail(db, email).value].emailVerified
    ensures var db1 := ResetPassword(db, email, otp, hashed, now).db;
      Login(db1, email, password, matches, sign).Ok? <==> matches(password, hashed)
  {
    var i := FindByEmail(db, email).value;
    var db1 := ResetPassword(db, email, otp, hashed, now).db;
    ReplaceKeepsValid(db, i, db1.rows[i]);
    FindByEmailUnique(db1, email, i);
  }

  /** `loginWithGoogle`: a user known by the Google id is returned as is;
      otherwise the user with that email is linked to the Google id, or a
      new verified user is created. */
  function LoginWithGoogle(db: Users, googleId: string, email: string, fullname: string, now: int,
                           sign: Claims -> string): (r: AuthOutcome<Session>)
    ensures r.result.Ok?
    ensures FindByGoogleId(db, googleId).Some? ==>
      r == AuthOutcome(Ok(Session(sign(LoginClaims(db.rows[FindByGoogleId(db, googleId).value])),
                                  db.rows[FindByGoogleId(db, googleId).value])), db)
    ensures FindByGoogleId(db, googleId).None? && FindByEmail(db, email).Some? ==>
      var i := FindByEmail(db, email).value;
      var u := db.rows[i].(googleId := Some(googleId));
      r == AuthOutcome(Ok(Session(sign(LoginClaims(u)), u)), db.(rows := db.rows[i := u]))
    ensures FindByGoogleId(db, googleId).None? && FindByEmail(db, email).None? ==>
      && |r.db.rows| == |db.rows| + 1 && r.db.rows[..|db.rows|] == db.rows
      && var u := r.db.rows[|db.rows|];
      && u.googleId == Some(googleId) && u.email == email && u.fullname == Some(fullname)
      && u.emailVerified && u.password.None? && u.id == db.nextId
      && r.result == Ok(Session(sign(LoginClaims(u)), u))
  {
    match FindByGoogleId(db, googleId)
    case Some(i) => AuthOutcome(Ok(Session(sign(LoginClaims(db.rows[i])), db.rows[i])), db)
    case None =>
      match FindByEmail(db, email)
      case Some(i) =>
        var u := db.rows[i].(googleId := Some(googleId));
        AuthOutcome(Ok(Session(sign(LoginClaims(u)), u)), db.(rows := db.rows[i := u]))
      case None =>
        var u := NewUser(db, email, Some(fullname), now).(googleId := Some(googleId), emailVerified := true);
        AuthOutcome(Ok(Session(sign(LoginClaims(u)), u)), Insert(db, u))
  }

  /** An account a Google sign-in creates has no password hash, so no
      password logs into it: `login` ends in the comparison's error. */
  lemma GoogleAccountRefusesPassword(db: Users, googleId: string, email: string, fullname: string, now: int,
                                     sign: Claims -> string, password: string, matches: (string, string) -> bool)
    requires Valid(db)
    requires FindByGoogleId(db, googleId).None? && FindByEmail(db, email).None?
    ensures var db1 := LoginWithGoogle(db, googleId, email, fullname, now, sign).db;
      Login(db1, email, password, matches, sign) == Err(Fail(NullHashText))
  {
    var db1 := LoginWithGoogle(db, googleId, email, fullname, now, sign).db;
    GoogleLoginKeepsValid(db, googleId, email, fullname, now, sign);
    FindByEmailUnique(db1, email, |db.rows|);
  }

  lemma {:induction false} GoogleLoginKeepsValid(db: Users, googleId: string, email: string, fullname: string,
                                                 now: int, sign: Claims -> string)
    requires Valid(db)
    ensures Valid(LoginWithGoogle(db, googleId, email, fullname, now, sign).db)
  {
    var db1 := LoginWithGoogle(db, googleId, email, fullname, now, sign).db;
    match FindByGoogleId(db, googleId)
    case Some(_) =>
    case None =>
      match FindByEmail(db, email)
      case Some(i) =>
        var u := db.rows[i].(googleId := Some(googleId));
        assert db1.rows == db.rows[i := u];
        forall a, b | 0 <= a < b < |db1.rows| && db1.rows[a].googleId.Some?
          ensures db1.rows[a].googleId != db1.rows[b].googleId
        {
          if a == i {
            assert db.rows[b].googleId != Some(googleId);
          } else if b == i {
            assert db.rows[a].googleId != Some(googleId);
          }
        }
      case None =>
        var u := NewUser(db, email, Some(fullname), now).(googleId := Some(googleId), emailVerified := true);
        InsertKeepsValid(db, u);
  }

  /** A second Google login with the same id finds the linked user and
      changes nothing. */
  lemma GoogleLoginIdempotent(db: Users, googleId: string, email: string, fullname: string, now: int,
                              later: int, sign: Claims -> string)
    requires Valid(db)
    ensures var db1 := LoginWithGoogle(db, googleId, email, fullname, now, sign).db;
      LoginWithGoogle(db1, googleId, email, fullname, later, sign).db == db1
  {
    var db1 := LoginWithGoogle(db, googleId, email, fullname, now, sign).db;
    assert exists k :: 0 <= k < |db1.rows| && db1.rows[k].googleId == Some(googleId) by {
      match FindByGoogleId(db, googleId)
      case Some(i) => assert db1.rows[i].googleId == Some(googleId);
      case None =>
        match FindByEmail(db, email)
        case Some(i) => assert db1.rows[i].googleId == Some(googleId);
        case None => assert db1.rows[|db.rows|].googleId == Some(googleId);
    }
  }

  /** `sendPhoneOTP`. The update runs first (a missing user makes it throw
      "record not found"); `sms` is the error the SMS service raises, if any,
      after the code is stored. The phone code shares `otpExpiresAt` with the
      email code. */
  function SendPhoneOtp(db: Users, userId: string, phone: string, draw: nat, now: int,
                        sms: Option<AppError>): (r: AuthOutcome<bool>)
    requires draw < 10000
    ensures UserIdOf(userId).Err? ==> r == AuthOutcome(Err(UserIdOf(userId).error), db)
    ensures UserIdOf(userId).Ok? && FindById(db, UserIdOf(userId).value).None? ==>
      r.db == db && r.result.Err? && r.result.error.KnownRequest? && r.result.error.code == "P2025"
    ensures UserIdOf(userId).Ok? && FindById(db, UserIdOf(userId).value).Some? ==>
      var i := FindById(db, UserIdOf(userId).value).value;
      && r.db == db.(rows := db.rows[i := db.rows[i].(phone := Some(phone), phoneOTP := Some(GenerateDefaultOtp(draw)),
                                                       otpExpiresAt := Some(FreshExpiry(now)))])
      && r.result == (if sms.None? then Ok(true) else Err(sms.value))
  {
    match UserIdOf(userId)
    case Err(e) => AuthOutcome(Err(e), db)
    case Ok(id) =>
      match FindById(db, id)
      case None => AuthOutcome(Err(RecordNotFound("Record to update not found.")), db)
      case Some(i) =>
        var u := db.rows[i].(phone := Some(phone), phoneOTP := Some(GenerateDefaultOtp(draw)),
                             otpExpiresAt := Some(FreshExpiry(now)));
        AuthOutcome(if sms.None? then Ok(true) else Err(sms.value), db.(rows := db.rows[i := u]))
  }

  /** `verifyPhoneOTP`: the same check order as the email code, against the
      phone code; on success the phone is verified and the phone code and the
      shared expiry are cleared. */
  function VerifyPhoneOtp(db: Users, userId: string, otp: Option<string>, now: int): (r: AuthOutcome<User>)
    ensures UserIdOf(userId).Err? ==> r == AuthOutcome(Err(UserIdOf(userId).error), db)
    ensures UserIdOf(userId).Ok? && FindById(db, UserIdOf(userId).value).None? ==>
      r == AuthOutcome(Err(Fail(UserNotFoundText)), db)
    ensures r.result.Ok? <==> (UserIdOf(userId).Ok? && FindById(db, UserIdOf(userId).value).Some? &&
      var u := db.rows[FindById(db, UserIdOf(userId).value).value];
      u.phoneOTP == otp && !Expired(u.otpExpiresAt, now))
    ensures r.result.Ok? ==>
      var i := FindById(db, UserIdOf(userId).value).value;
      var u := db.rows[i].(phoneVerified := true, phoneOTP := None, otpExpiresAt := None);
      r == AuthOutcome(Ok(u), db.(rows := db.rows[i := u]))
    ensures r.result.Err? ==> r.db == db
  {
    match UserIdOf(userId)
    case Err(e) => AuthOutcome(Err(e), db)
    case Ok(id) =>
      match FindById(db, id)
      case None => AuthOutcome(Err(Fail(UserNotFoundText)), db)
      case Some(i) =>
        var u := db.rows[i];
        if u.phoneOTP != otp then AuthOutcome(Err(Fail(InvalidOtpText)), db)
        else if Expired(u.otpExpiresAt, now) then AuthOutcome(Err(Fail(OtpExpiredText)), db)
        else
          var u' := u.(phoneVerified := true, phoneOTP := None, otpExpiresAt := None);
          AuthOutcome(Ok(u'), db.(rows := db.rows[i := u']))
  }

  /** The two codes share one expiry: sending a phone code revives an
      expired email code for another ten minutes, and verifying the phone
      clears the expiry the email code is checked against. */
  lemma PhoneCodeSharesExpiry(db: Users, userId: nat, phone: string, draw: nat, now: int)
    requires Valid(db) && draw < 10000
    requires FindById(db, userId).Some?
    ensures var i := FindById(db, userId).value;
      var db1 := SendPhoneOtp(db, NatToDecimal(userId), phone, draw, now, None).db;
      && db1.rows[i].emailOTP == db.rows[i].emailOTP
      && db1.rows[i].otpExpiresAt == Some(now + 600000)
      && CheckEmailOtp(db1, db.rows[i].email, db.rows[i].emailOTP, now).Ok?
  {
    var i := FindById(db, userId).value;
    NumberOfDecimal(userId);
    var db1 := SendPhoneOtp(db, NatToDecimal(userId), phone, draw, now, None).db;
    ReplaceKeepsValid(db, i, db1.rows[i]);
    FindByEmailUnique(db1, db.rows[i].email, i);
  }

  /** Sending a phone code to an existing user stores it on that user's row,
      with the phone and a fresh expiry, and keeps the table valid. */
  lemma SendStoresPhoneCode(db: Users, userId: nat, phone: string, draw: nat, now: int, sms: Option<AppError>)
    requires Valid(db) && draw < 10000
    requires FindById(db, userId).Some?
    ensures var i := FindById(db, userId).value;
      var db1 := SendPhoneOtp(db, NatToDecimal(userId), phone, draw, now, sms).db;
      && Valid(db1) && FindById(db1, userId) == Some(i)
      && db1.rows[i].phoneOTP == Some(GenerateDefaultOtp(draw)) && db1.rows[i].phone == Some(phone)
      && db1.rows[i].otpExpiresAt == Some(FreshExpiry(now))
  {
    var i := FindById(db, userId).value;
    NumberOfDecimal(userId);
    var db1 := SendPhoneOtp(db, NatToDecimal(userId), phone, draw, now, sms).db;
    ReplaceKeepsValid(db, i, db1.rows[i]);
    FindByIdUnique(db1, userId, i);
  }

  /** A stored, unexpired phone code verifies once and is then spent. */
  lemma StoredPhoneCodeVerifiesOnce(db: Users, userId: nat, i: nat, code: string, later: int, again: int)
    requires Valid(db) && FindById(db, userId) == Some(i)
    requires db.rows[i].phoneOTP == Some(code) && !Expired(db.rows[i].otpExpiresAt, later)
    ensures var v := VerifyPhoneOtp(db, NatToDecimal(userId), Some(code), later);
      && v.result.Ok? && |v.db.rows| == |db.rows|
      && v.db.rows[i].phoneVerified && v.db.rows[i].phone == db.rows[i].phone
      && VerifyPhoneOtp(v.db, NatToDecimal(userId), Some(code), again) == AuthOutcome(Err(Fail(InvalidOtpText)), v.db)
  {
    NumberOfDecimal(userId);
    var v := VerifyPhoneOtp(db, NatToDecimal(userId), Some(code), later);
    ReplaceKeepsValid(db, i, v.db.rows[i]);
    FindByIdUnique(v.db, userId, i);
  }

  /** The phone code's partner: a code just sent (whether or not the SMS
      went out) verifies the phone at any instant up to ten minutes later,
      and is then spent, so submitting it again is refused as invalid. */
  lemma SentPhoneCodeVerifies(db: Users, userId: nat, phone: string, draw: nat, now: int,
                              sms: Option<AppError>, later: int, again: int)
    requires Valid(db) && draw < 10000
    requires FindById(db, userId).Some?
    requires later <= now + 600000
    ensures var i := FindById(db, userId).value;
      var db1 := SendPhoneOtp(db, NatToDecimal(userId), phone, draw, now, sms).db;
      var v := VerifyPhoneOtp(db1, NatToDecimal(userId), Some(GenerateDefaultOtp(draw)), later);
      && v.result.Ok? && |v.db.rows| == |db.rows|
      && v.db.rows[i].phoneVerified && v.db.rows[i].phone == Some(phone)
      && VerifyPhoneOtp(v.db, NatToDecimal(userId), Some(GenerateDefaultOtp(draw)), again)
         == AuthOutcome(Err(Fail(InvalidOtpText)), v.db)
  {
    var i := FindById(db, userId).value;
    var code := GenerateDefaultOtp(draw);
    var db1 := SendPhoneOtp(db, NatToDecimal(userId), phone, draw, now, sms).db;
    SendStoresPhoneCode(db, userId, phone, draw, now, sms);
    DefaultValidityWindow(now, later);
    StoredPhoneCodeVerifiesOnce(db1, userId, i, code, later, again);
  }
}
