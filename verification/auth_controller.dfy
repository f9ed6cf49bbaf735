/**
 * The authentication controller: registration (open and by invite),
 * login, phone verification, the one-time-password reset, and profile
 * updates, each with its checks in the order the handlers make them.
 *
 * The users collection is a sequence of documents searched in order, as
 * `findOne` does; a handler that changes one document returns the
 * collection with that document replaced. The handlers that work on the
 * caller's own document take it as a `User` object and change it in place.
 * Random codes, the clock and the password-hash comparison are parameters.
 */
module AuthController {
  import opened Common
  import opened UserModel
  import opened Validators
  import TenantController

  const REQUIRED_FIELDS := "Name, email, and password are required"
  const PASSWORDS_NOT_MATCH := "Passwords do not match"
  const EMAIL_ALREADY_REGISTERED := "Email already registered"
  const PHONE_TAKEN := "Phone number already registered"
  const REGISTRATION_SUCCESSFUL := "Registration successful"
  const EMAIL_OR_PHONE_REQUIRED := "Email or phone is required"
  const EMAIL_PASSWORD_REQUIRED := "Email and password are required"
  const INVALID_CREDENTIALS := "Invalid email or password"
  const ACCOUNT_BANNED := "User account is banned"
  const LOGIN_SUCCESSFUL := "Login successful"
  const PHONE_VERIFICATION_REQUIRED := "Phone verification required"
  const USER_NOT_FOUND := "User not found"
  const USER_ID_REQUIRED := "User ID required"
  const NO_PHONE := "No phone number registered"
  const ALREADY_VERIFIED := "Phone already verified"
  const CODE_SENT := "Verification code sent successfully"
  const ID_AND_CODE_REQUIRED := "User ID and verification code required"
  const NO_ACTIVE_VERIFICATION := "No active phone verification"
  const INVALID_CODE := "Invalid verification code"
  const PHONE_VERIFIED := "Phone verified successfully"
  const EMAIL_OR_PHONE_MISSING := "Email or phone required"
  const ACCOUNT_NOT_FOUND := "Account not found"
  const OTP_SENT := "OTP sent successfully"
  const OTP_REQUIRED := "OTP is required"
  const OTP_INVALID := "Invalid or expired OTP"
  const OTP_VERIFIED := "OTP verified successfully"
  const OTP_AND_PASSWORDS_REQUIRED := "OTP and passwords are required"
  const PASSWORD_RESET_SUCCESSFUL := "Password reset successful"
  const NAME_TOO_SHORT := "Name must be at least 2 characters"
  const TENANT_NOT_FOUND := "Tenant not found"
  const INVALID_INVITE := "Invalid invite token"
  const INVITE_ACCEPTED := "This invite was already accepted"
  const INVITE_EXPIRED := "Invite link has expired"
  const WELCOME := "Welcome! Registration successful! \U{1F389}"
  const PROFILE_UPDATED := "Profile updated successfully"

  /** Ten minutes in milliseconds: the life of a reset code. */
  const OTP_LIFETIME := 10 * 60 * 1000

  /**
   * A handler's answer: a response, an error thrown by a validator (which
   * the error middleware answers), or a document the schema refuses to save.
   */
  datatype Reply = Reply(status: int, message: string) | Threw(message: string) | SchemaRejected(path: string)

  // ---------------------------------------------------------------------
  // Looking users up
  // ---------------------------------------------------------------------

  /** `phone.replace(/\D/g, '')`. */
  function NormalizePhone(phone: string): (r: string)
    ensures AllDigits(r) && |r| <= |phone|
  {
    DigitsOnly(phone)
  }

  /** Normalizing twice is normalizing once, and it works piece by piece. */
  lemma NormalizePhoneIdempotent(a: string, b: string)
    ensures NormalizePhone(NormalizePhone(a)) == NormalizePhone(a)
    ensures NormalizePhone(a + b) == NormalizePhone(a) + NormalizePhone(b)
  {
    FilterAll(DigitsOnly(a), IsDigit);
    FilterAppend(a, b, IsDigit);
  }

  /** `findOne({ email })`; the schema lowercases e-mails in queries as in documents. */
  predicate HasEmail(email: string, u: UserRecord)
  {
    u.email == ToLower(email)
  }

  predicate HasPhone(phone: string, u: UserRecord)
  {
    u.phone == Some(phone)
  }

  /** `findOne(filter)`: the first document the filter accepts. */
  function FindUser(users: seq<UserRecord>, p: UserRecord -> bool): (r: Option<nat>)
    ensures r.Some? ==> r.value < |users| && p(users[r.value]) && forall k :: 0 <= k < r.value ==> !p(users[k])
    ensures r.None? ==> forall k :: 0 <= k < |users| ==> !p(users[k])
  {
    if users == [] then None
    else if p(users[0]) then Some(0)
    else
      match FindUser(users[1..], p)
      case None => None
      case Some(i) => Some(i + 1)
  }

  predicate EmailTaken(users: seq<UserRecord>, email: string)
  {
    exists k :: 0 <= k < |users| && HasEmail(email, users[k])
  }

  predicate PhoneTaken(users: seq<UserRecord>, phone: string)
  {
    exists k :: 0 <= k < |users| && HasPhone(phone, users[k])
  }

  /** The unique indexes on `email` and (for set phones) `phone`. */
  predicate EmailsUnique(users: seq<UserRecord>)
  {
    forall i, j :: 0 <= i < j < |users| ==> users[i].email != users[j].email
  }

  predicate PhonesUnique(users: seq<UserRecord>)
  {
    forall i, j :: 0 <= i < j < |users| && users[i].phone.Some? ==> users[i].phone != users[j].phone
  }

  /** The document a new registration creates. */
  function NewUser(id: Id, name: string, email: string, password: string, phone: Option<string>,
                   code: string, tenantId: Option<Id>): (u: UserRecord)
    ensures u.role == USER && u.status == ACTIVE && !u.phoneVerified
    ensures u.phoneVerificationToken == (if phone.Some? then Some(code) else None)
  {
    UserRecord(id, Trim(name), ToLower(email), phone, false, if phone.Some? then Some(code) else None,
               None, None, password, None, USER, tenantId, ACTIVE, [], [], [], [], None)
  }

  // ---------------------------------------------------------------------
  // register
  // ---------------------------------------------------------------------

  datatype RegisterOutcome = Registered(user: UserRecord) | RegisterFailed(reply: Reply)

  datatype PhoneResult = PhoneOk(phone: Option<string>) | PhoneFailed(reply: Reply)

  /** `if (phone) { validatePhone; normalize; reject a taken number }`. */
  function PhoneCheck(users: seq<UserRecord>, phone: string): (r: PhoneResult)
    ensures phone == "" ==> r == PhoneOk(None)
    ensures r.PhoneOk? && phone != "" ==>
      r.phone == Some(NormalizePhone(phone)) && IsValidPhone(phone) && 10 <= |NormalizePhone(phone)| <= 15 &&
      !PhoneTaken(users, NormalizePhone(phone))
    ensures r.PhoneOk? <==> phone == "" || (IsValidPhone(phone) && !PhoneTaken(users, NormalizePhone(phone)))
  {
    if phone == "" then PhoneOk(None)
    else
      match ValidatePhone(phone)
      case Thrown(m) => PhoneFailed(Threw(m))
      case Accepted =>
        if PhoneTaken(users, NormalizePhone(phone)) then PhoneFailed(Reply(400, PHONE_TAKEN))
        else PhoneOk(Some(NormalizePhone(phone)))
  }

  /**
   * `register`: required fields, then the e-mail format, then the password
   * strength, then the confirmation, then the phone, then the e-mail's
   * uniqueness. A new user is an active, unverified `USER`.
   */
  function Register(users: seq<UserRecord>, name: string, email: string, password: string,
                    confirmPassword: Option<string>, phone: string, newId: Id, code: string): (r: RegisterOutcome)
    ensures name == "" || email == "" || password == "" ==> r == RegisterFailed(Reply(400, REQUIRED_FIELDS))
    ensures name != "" && email != "" && password != "" && !EmailRegex(email) ==>
      r == RegisterFailed(Threw("Invalid email format"))
    ensures name != "" && email != "" && password != "" && EmailRegex(email) && Utf16Length(password) < 6 ==>
      r == RegisterFailed(Threw("Password must be at least 6 characters"))
    ensures name != "" && email != "" && EmailRegex(email) && Utf16Length(password) >= 6 &&
            confirmPassword != Some(password) ==>
      r == RegisterFailed(Reply(400, PASSWORDS_NOT_MATCH))
    ensures r.Registered? ==>
      r.user.id == newId && r.user.role == USER && r.user.status == ACTIVE && !r.user.phoneVerified &&
      r.user.email == ToLower(email) && EmailRegex(email) && !EmailTaken(users, email) &&
      r.user.password == password && Utf16Length(password) >= 6 && confirmPassword == Some(password) &&
      r.user.tenantId.None? &&
      (phone == "" ==> r.user.phone.None? && r.user.phoneVerificationToken.None?) &&
      (phone != "" ==> r.user.phone == Some(NormalizePhone(phone)) && !PhoneTaken(users, NormalizePhone(phone)) &&
                       r.user.phoneVerificationToken == Some(code))
    ensures (name != "" && email != "" && EmailRegex(email) && Utf16Length(password) >= 6 &&
             confirmPassword == Some(password) && PhoneCheck(users, phone).PhoneOk? && !EmailTaken(users, email) &&
             Trim(name) != "") ==> r.Registered?
  {
    if name == "" || email == "" || password == "" then RegisterFailed(Reply(400, REQUIRED_FIELDS))
    else if ValidateEmail(email).Thrown? then RegisterFailed(Threw(ValidateEmail(email).message))
    else if ValidatePassword(password).Thrown? then RegisterFailed(Threw(ValidatePassword(password).message))
    else if confirmPassword != Some(password) then RegisterFailed(Reply(400, PASSWORDS_NOT_MATCH))
    else
      match PhoneCheck(users, phone)
      case PhoneFailed(reply) => RegisterFailed(reply)
      case PhoneOk(p) =>
        if EmailTaken(users, email) then RegisterFailed(Reply(400, EMAIL_ALREADY_REGISTERED))
        else if Trim(name) == "" then RegisterFailed(SchemaRejected("name"))
        else Registered(NewUser(newId, name, email, password, p, code, None))
  }

  /** Registration keeps e-mails and phone numbers unique across the collection. */
  lemma RegisterKeepsUsersUnique(users: seq<UserRecord>, name: string, email: string, password: string,
                                 confirmPassword: Option<string>, phone: string, newId: Id, code: string)
    requires EmailsUnique(users) && PhonesUnique(users)
    requires Register(users, name, email, password, confirmPassword, phone, newId, code).Registered?
    ensures var u := Register(users, name, email, password, confirmPassword, phone, newId, code).user;
      EmailsUnique(users + [u]) && PhonesUnique(users + [u])
  {
    var u := Register(users, name, email, password, confirmPassword, phone, newId, code).user;
    var all := users + [u];
    forall i, j | 0 <= i < j < |all| ensures all[i].email != all[j].email {
      if j == |users| {
        assert !HasEmail(email, users[i]);
      }
    }
    forall i, j | 0 <= i < j < |all| && all[i].phone.Some? ensures all[i].phone != all[j].phone {
      if j == |users| && u.phone.Some? {
        assert !HasPhone(NormalizePhone(phone), users[i]);
      }
    }
  }

  // ---------------------------------------------------------------------
  // login
  // ---------------------------------------------------------------------

  datatype LoginOutcome =
    | LoggedIn(user: UserRecord)
    | PhoneStepRequired(userId: Id, lastDigits: string)
    | LoginFailed(reply: Reply)

  /** The lookup of `login` and the reset handlers: by e-mail when one is given, else by normalized phone. */
  function ByEmailOrPhone(email: string, phone: string): (p: UserRecord -> bool)
    ensures email != "" ==> forall u :: p(u) <==> HasEmail(email, u)
    ensures email == "" ==> forall u :: p(u) <==> HasPhone(NormalizePhone(phone), u)
  {
    if email != "" then u => HasEmail(email, u) else u => HasPhone(NormalizePhone(phone), u)
  }

  /**
   * `login`. `matches(hash, password)` is the bcrypt comparison. Bad
   * credentials are answered before a ban is revealed.
   */
  function Login(users: seq<UserRecord>, email: string, phone: string, password: string,
                 requirePhoneVerification: bool, matches: (string, string) -> bool, now: int): (r: LoginOutcome)
    ensures email == "" && phone == "" ==> r == LoginFailed(Reply(400, EMAIL_OR_PHONE_REQUIRED))
    ensures (email != "" || phone != "") && password == "" ==> r == LoginFailed(Reply(400, EMAIL_PASSWORD_REQUIRED))
    ensures r.LoggedIn? || r.PhoneStepRequired? ==>
      var i := FindUser(users, ByEmailOrPhone(email, phone));
      i.Some? && matches(users[i.value].password, password) && users[i.value].status != BANNED
    ensures r.LoggedIn? ==>
      var i := FindUser(users, ByEmailOrPhone(email, phone)).value;
      r.user == users[i].(lastLogin := Some(now))
    ensures r.PhoneStepRequired? ==>
      var u := users[FindUser(users, ByEmailOrPhone(email, phone)).value];
      requirePhoneVerification && !u.phoneVerified && u.phone.Some? && r.userId == u.id &&
      r.lastDigits == LastN(u.phone.value, 4)
  {
    if email == "" && phone == "" then LoginFailed(Reply(400, EMAIL_OR_PHONE_REQUIRED))
    else if password == "" then LoginFailed(Reply(400, EMAIL_PASSWORD_REQUIRED))
    else if email == "" && ValidatePhone(phone).Thrown? then LoginFailed(Threw(ValidatePhone(phone).message))
    else
      match FindUser(users, ByEmailOrPhone(email, phone))
      case None => LoginFailed(Reply(401, INVALID_CREDENTIALS))
      case Some(i) =>
        var u := users[i];
        if !matches(u.password, password) then LoginFailed(Reply(401, INVALID_CREDENTIALS))
        else if u.status == BANNED then LoginFailed(Reply(403, ACCOUNT_BANNED))
        else if u.phone.Some? && u.phone.value != "" && !u.phoneVerified && requirePhoneVerification then
          PhoneStepRequired(u.id, LastN(u.phone.value, 4))
        else LoggedIn(u.(lastLogin := Some(now)))
  }

  /**
   * What `login` answers once the request is well formed: an unusable phone
   * number throws; otherwise 401 exactly when no account is found or the
   * password does not match, 403 for a banned account, and for anyone else
   * either the phone step (an unverified phone, when verification is
   * required) or a login that stamps the time.
   */
  lemma LoginAfterLookup(users: seq<UserRecord>, email: string, phone: string, password: string,
                         requirePhoneVerification: bool, matches: (string, string) -> bool, now: int)
    requires (email != "" || phone != "") && password != ""
    ensures email == "" && ValidatePhone(phone).Thrown? ==>
      Login(users, email, phone, password, requirePhoneVerification, matches, now) ==
      LoginFailed(Threw(ValidatePhone(phone).message))
    ensures email != "" || ValidatePhone(phone) == Accepted ==>
      var r := Login(users, email, phone, password, requirePhoneVerification, matches, now);
      var i := FindUser(users, ByEmailOrPhone(email, phone));
      (r == LoginFailed(Reply(401, INVALID_CREDENTIALS)) <==> i.None? || !matches(users[i.value].password, password)) &&
      (i.Some? && matches(users[i.value].password, password) && users[i.value].status == BANNED ==>
         r == LoginFailed(Reply(403, ACCOUNT_BANNED))) &&
      (i.Some? && matches(users[i.value].password, password) && users[i.value].status != BANNED ==>
         var u := users[i.value];
         if u.phone.Some? && u.phone.value != "" && !u.phoneVerified && requirePhoneVerification
         then r == PhoneStepRequired(u.id, LastN(u.phone.value, 4))
         else r == LoggedIn(u.(lastLogin := Some(now))))
  {
  }

  /** A banned user with a wrong password learns only that the credentials are wrong. */
  lemma WrongPasswordHidesBan(users: seq<UserRecord>, email: string, password: string, requirePhone: bool,
                              matches: (string, string) -> bool, now: int)
    requires email != "" && password != ""
    requires FindUser(users, ByEmailOrPhone(email, "")).Some?
    ensures var u := users[FindUser(users, ByEmailOrPhone(email, "")).value];
      (!matches(u.password, password) ==>
         Login(users, email, "", password, requirePhone, matches, now) == LoginFailed(Reply(401, INVALID_CREDENTIALS))) &&
      (matches(u.password, password) && u.status == BANNED ==>
         Login(users, email, "", password, requirePhone, matches, now) == LoginFailed(Reply(403, ACCOUNT_BANNED)))
  {
  }

  // ---------------------------------------------------------------------
  // Phone verification on the caller's document
  // ---------------------------------------------------------------------

  function RecordOf(user: User?): Option<UserRecord>
    reads user
  {
    if user == null then None else Some(user.Record())
  }

  /** `sendPhoneVerification`: a stored, unverified phone gets a new code. */
  function SendCodeSpec(userIdGiven: bool, rec: Option<UserRecord>, code: string): (r: (Reply, Option<UserRecord>))
    ensures r.0 == Reply(200, CODE_SENT) <==>
      userIdGiven && rec.Some? && rec.value.phone.Some? && rec.value.phone.value != "" && !rec.value.phoneVerified
    ensures r.0 == Reply(200, CODE_SENT) ==> r.1 == Some(rec.value.(phoneVerificationToken := Some(code)))
    ensures r.0 != Reply(200, CODE_SENT) ==> r.1 == rec
  {
    if !userIdGiven then (Reply(400, USER_ID_REQUIRED), rec)
    else if rec.None? then (Reply(404, USER_NOT_FOUND), rec)
    else if rec.value.phone.None? || rec.value.phone.value == "" then (Reply(400, NO_PHONE), rec)
    else if rec.value.phoneVerified then (Reply(400, ALREADY_VERIFIED), rec)
    else (Reply(200, CODE_SENT), Some(rec.value.(phoneVerificationToken := Some(code))))
  }

  /** `verifyPhoneNumber`: the stored code must exist and equal the given one; it is used up. */
  function VerifyPhoneSpec(userIdGiven: bool, rec: Option<UserRecord>, code: string): (r: (Reply, Option<UserRecord>))
    ensures r.0 == Reply(200, PHONE_VERIFIED) <==>
      userIdGiven && code != "" && rec.Some? && rec.value.phoneVerificationToken == Some(code)
    ensures r.0 == Reply(200, PHONE_VERIFIED) ==>
      r.1 == Some(rec.value.(phoneVerified := true, phoneVerificationToken := None))
    ensures r.0 != Reply(200, PHONE_VERIFIED) ==> r.1 == rec
    ensures userIdGiven && code != "" && rec.Some? && rec.value.phoneVerificationToken.Some? &&
            rec.value.phoneVerificationToken.value != "" && rec.value.phoneVerificationToken != Some(code) ==>
      r.0 == Reply(401, INVALID_CODE)
  {
    if !userIdGiven || code == "" then (Reply(400, ID_AND_CODE_REQUIRED), rec)
    else if rec.None? then (Reply(404, USER_NOT_FOUND), rec)
    else if rec.value.phoneVerificationToken.None? || rec.value.phoneVerificationToken.value == "" then
      (Reply(400, NO_ACTIVE_VERIFICATION), rec)
    else if rec.value.phoneVerificationToken.value != code then (Reply(401, INVALID_CODE), rec)
    else (Reply(200, PHONE_VERIFIED), Some(rec.value.(phoneVerified := true, phoneVerificationToken := None)))
  }

  /** The code just sent verifies the phone, once; a second attempt finds no active verification. */
  lemma SentCodeVerifiesOnce(rec: UserRecord, code: string)
    requires code != ""
    requires SendCodeSpec(true, Some(rec), code).0 == Reply(200, CODE_SENT)
    ensures var sent := SendCodeSpec(true, Some(rec), code).1;
      var verified := VerifyPhoneSpec(true, sent, code);
      verified.0 == Reply(200, PHONE_VERIFIED) && verified.1.value.phoneVerified &&
      VerifyPhoneSpec(true, verified.1, code).0 == Reply(400, NO_ACTIVE_VERIFICATION)
  {
  }

  method SendPhoneVerification(userIdGiven: bool, user: User?, code: string) returns (reply: Reply)
    modifies user
    ensures var s := SendCodeSpec(userIdGiven, old(RecordOf(user)), code); reply == s.0 && RecordOf(user) == s.1
  {
    if !userIdGiven {
      return Reply(400, USER_ID_REQUIRED);
    }
    if user == null {
      return Reply(404, USER_NOT_FOUND);
    }
    if user.phone.None? || user.phone.value == "" {
      return Reply(400, NO_PHONE);
    }
    if user.phoneVerified {
      return Reply(400, ALREADY_VERIFIED);
    }
    user.phoneVerificationToken := Some(code);
    return Reply(200, CODE_SENT);
  }

  method VerifyPhoneNumber(userIdGiven: bool, user: User?, code: string) returns (reply: Reply)
    modifies user
    ensures var s := VerifyPhoneSpec(userIdGiven, old(RecordOf(user)), code); reply == s.0 && RecordOf(user) == s.1
  {
    if !userIdGiven || code == "" {
      return Reply(400, ID_AND_CODE_REQUIRED);
    }
    if user == null {
      return Reply(404, USER_NOT_FOUND);
    }
    if user.phoneVerificationToken.None? || user.phoneVerificationToken.value == "" {
      return Reply(400, NO_ACTIVE_VERIFICATION);
    }
    if user.phoneVerificationToken.value != code {
      return Reply(401, INVALID_CODE);
    }
    user.phoneVerified := true;
    user.phoneVerificationToken := None;
    return Reply(200, PHONE_VERIFIED);
  }

  // ---------------------------------------------------------------------
  // Password reset by one-time code
  // ---------------------------------------------------------------------

  datatype Directory = Directory(reply: Reply, users: seq<UserRecord>)

  /** `forgotPassword`: the found account gets the code and an expiry ten minutes ahead. */
  function ForgotPassword(users: seq<UserRecord>, email: string, phone: string, otp: string, now: int): (r: Directory)
    ensures email == "" && phone == "" ==> r.reply == Reply(400, EMAIL_OR_PHONE_MISSING)
    ensures r.reply == Reply(200, OTP_SENT) ==>
      var i := FindUser(users, ByEmailOrPhone(email, phone));
      i.Some? &&
      r.users == users[i.value := users[i.value].(passwordResetToken := Some(otp),
                                                  passwordResetExpiry := Some(now + OTP_LIFETIME))]
    ensures r.reply != Reply(200, OTP_SENT) ==> r.users == users
    ensures (email != "" || phone != "") && FindUser(users, ByEmailOrPhone(email, phone)).None? ==>
      r.reply != Reply(200, OTP_SENT)
  {
    if email == "" && phone == "" then Directory(Reply(400, EMAIL_OR_PHONE_MISSING), users)
    else if email != "" && ValidateEmail(email).Thrown? then Directory(Threw(ValidateEmail(email).message), users)
    else if email == "" && ValidatePhone(phone).Thrown? then Directory(Threw(ValidatePhone(phone).message), users)
    else
      match FindUser(users, ByEmailOrPhone(email, phone))
      case None => Directory(Reply(404, ACCOUNT_NOT_FOUND), users)
      case Some(i) =>
        Directory(Reply(200, OTP_SENT),
                  users[i := users[i].(passwordResetToken := Some(otp), passwordResetExpiry := Some(now + 10 * 60 * 1000))])
  }

  /** The reset handlers' query: the account, the code, and an expiry still in the future. */
  predicate CodeMatches(key: UserRecord -> bool, otp: string, now: int, u: UserRecord)
  {
    key(u) && u.passwordResetToken == Some(otp) && u.passwordResetExpiry.Some? && u.passwordResetExpiry.value > now
  }

  function CodeQuery(email: string, phone: string, otp: string, now: int): UserRecord -> bool
  {
    u => CodeMatches(ByEmailOrPhone(email, phone), otp, now, u)
  }

  /** `verifyResetOTP`: no validation of the e-mail or phone, only the combined query. */
  function VerifyResetOtp(users: seq<UserRecord>, email: string, phone: string, otp: string, now: int): (r: Reply)
    ensures r == Reply(200, OTP_VERIFIED) <==>
      otp != "" && (email != "" || phone != "") && FindUser(users, CodeQuery(email, phone, otp, now)).Some?
  {
    if otp == "" then Reply(400, OTP_REQUIRED)
    else if email == "" && phone == "" then Reply(400, EMAIL_OR_PHONE_MISSING)
    else if FindUser(users, CodeQuery(email, phone, otp, now)).None? then Reply(401, OTP_INVALID)
    else Reply(200, OTP_VERIFIED)
  }

  /** `resetPassword`: the new password replaces the old one and the code is used up. */
  function ResetPassword(users: seq<UserRecord>, email: string, phone: string, otp: string, password: string,
                         confirmPassword: string, now: int): (r: Directory)
    ensures r.reply == Reply(200, PASSWORD_RESET_SUCCESSFUL) ==>
      var i := FindUser(users, CodeQuery(email, phone, otp, now));
      i.Some? && Utf16Length(password) >= 6 && password == confirmPassword &&
      r.users == users[i.value := users[i.value].(password := password, passwordResetToken := None,
                                                  passwordResetExpiry := None)]
    ensures r.reply != Reply(200, PASSWORD_RESET_SUCCESSFUL) ==> r.users == users
    ensures otp != "" && password != "" && confirmPassword != "" && (email != "" || phone != "") &&
            Utf16Length(password) >= 6 && password == confirmPassword &&
            FindUser(users, CodeQuery(email, phone, otp, now)).Some? ==>
      r.reply == Reply(200, PASSWORD_RESET_SUCCESSFUL)
  {
    if otp == "" || password == "" || confirmPassword == "" then Directory(Reply(400, OTP_AND_PASSWORDS_REQUIRED), users)
    else if email == "" && phone == "" then Directory(Reply(400, EMAIL_OR_PHONE_MISSING), users)
    else if ValidatePassword(password).Thrown? then Directory(Threw(ValidatePassword(password).message), users)
    else if password != confirmPassword then Directory(Reply(400, PASSWORDS_NOT_MATCH), users)
    else
      match FindUser(users, CodeQuery(email, phone, otp, now))
      case None => Directory(Reply(401, OTP_INVALID), users)
      case Some(i) =>
        Directory(Reply(200, PASSWORD_RESET_SUCCESSFUL),
                  users[i := users[i].(password := password, passwordResetToken := None, passwordResetExpiry := None)])
  }

  /** With unique e-mails, no other document answers the lookup of an owner's e-mail. */
  lemma OnlyOwnerHasEmail(users: seq<UserRecord>, email: string, i: nat)
    requires EmailsUnique(users) && i < |users| && HasEmail(email, users[i])
    ensures forall k :: 0 <= k < |users| && k != i ==> !HasEmail(email, users[k])
  {
    forall k | 0 <= k < |users| && k != i ensures !HasEmail(email, users[k]) {
      if k < i {
        assert users[k].email != users[i].email;
      } else {
        assert users[i].email != users[k].email;
      }
    }
  }

  /** A code sent at `t` is accepted exactly while the clock is before `t` plus ten minutes. */
  lemma CodeValidForTenMinutes(users: seq<UserRecord>, email: string, otp: string, t: int, later: int)
    requires EmailsUnique(users) && email != "" && otp != ""
    requires ForgotPassword(users, email, "", otp, t).reply == Reply(200, OTP_SENT)
    ensures var sent := ForgotPassword(users, email, "", otp, t).users;
      VerifyResetOtp(sent, email, "", otp, later) == Reply(200, OTP_VERIFIED) <==> later < t + OTP_LIFETIME
  {
    var i := FindUser(users, ByEmailOrPhone(email, "")).value;
    var sent := ForgotPassword(users, email, "", otp, t).users;
    var q := CodeQuery(email, "", otp, later);
    assert EmailsUnique(sent) by {
      forall a, b | 0 <= a < b < |sent| ensures sent[a].email != sent[b].email {
        assert sent[a].email == users[a].email && sent[b].email == users[b].email;
      }
    }
    if later < t + OTP_LIFETIME {
      assert q(sent[i]);
    } else {
      OnlyOwnerHasEmail(sent, email, i);
      assert !q(sent[i]);
    }
  }

  /** A reset uses the code up: the same request a second time is refused. */
  lemma ResetIsOneTime(users: seq<UserRecord>, email: string, otp: string, password: string, now: int)
    requires EmailsUnique(users) && email != ""
    requires ResetPassword(users, email, "", otp, password, password, now).reply == Reply(200, PASSWORD_RESET_SUCCESSFUL)
    ensures var after := ResetPassword(users, email, "", otp, password, password, now).users;
      ResetPassword(after, email, "", otp, password, password, now).reply == Reply(401, OTP_INVALID)
  {
    var i := FindUser(users, CodeQuery(email, "", otp, now)).value;
    var after := ResetPassword(users, email, "", otp, password, password, now).users;
    var q := CodeQuery(email, "", otp, now);
    OnlyOwnerHasEmail(users, email, i);
    forall k | 0 <= k < |after| && k != i ensures !q(after[k]) {
      assert after[k] == users[k];
    }
    assert !q(after[i]);
  }

  // ---------------------------------------------------------------------
  // registerWithInvite
  // ---------------------------------------------------------------------

  /** `phone || inviteToken.invitedPhone`. */
  function PhoneToUse(phone: string, inv: TenantController.Invite): (r: string)
    ensures phone != "" ==> r == phone
    ensures phone == "" && inv.invitedPhone.Some? ==> r == inv.invitedPhone.value
    ensures r == "" <==> phone == "" && (inv.invitedPhone.None? || inv.invitedPhone.value == "")
  {
    if phone != "" then phone else if inv.invitedPhone.Some? then inv.invitedPhone.value else ""
  }

  datatype JoinOutcome = Joined(user: UserRecord, tenant: TenantController.TenantRecord) | JoinFailed(reply: Reply)

  /**
   * `registerWithInvite`: fields, matching passwords, password strength,
   * a trimmed name of two or more characters, the workspace, the right
   * invite token, not yet accepted, not expired; then the phone (given or
   * from the invite), the invited e-mail's uniqueness, and the user
   * schema's e-mail rules when the account is saved. The new user joins
   * the workspace, and the invite records who accepted it and when.
   *
   * `inviteToken` is a nested path of the tenant schema, so it is an object
   * even when no invite was ever made; its token is then undefined and
   * differs from the (non-empty) token given: 401, never the 400 of the
   * `!inviteToken` branch. An invite without an invited e-mail gives an
   * account without one, which the schema's `required` refuses.
   */
  function JoinSpec(users: seq<UserRecord>, t: Option<TenantController.TenantRecord>, token: string, tenantId: Id,
                    name: string, password: string, confirmPassword: string, phone: string, newId: Id,
                    code: string, now: int): (r: JoinOutcome)
    ensures token == "" || tenantId == "" || name == "" || password == "" || confirmPassword == "" ==>
      r == JoinFailed(Reply(400, REQUIRED_FIELDS))
    ensures r.Joined? ==>
      t.Some? && t.value.inviteToken.Some? &&
      var inv := t.value.inviteToken.value;
      inv.token == token && inv.acceptedAt.None? && now <= inv.expiresAt &&
      password == confirmPassword && Utf16Length(password) >= 6 && Utf16Length(Trim(name)) >= 2 &&
      PhoneCheck(users, PhoneToUse(phone, inv)).PhoneOk? &&
      inv.invitedEmail.Some? && !EmailTaken(users, inv.invitedEmail.value) &&
      EmailRegex(ToLower(inv.invitedEmail.value)) &&
      r.user.id == newId && r.user.role == USER && r.user.status == ACTIVE && !r.user.phoneVerified &&
      r.user.tenantId == Some(tenantId) && r.user.email == ToLower(inv.invitedEmail.value) &&
      (PhoneToUse(phone, inv) != "" ==> r.user.phone == Some(NormalizePhone(PhoneToUse(phone, inv)))) &&
      (PhoneToUse(phone, inv) == "" ==> r.user.phone.None?) &&
      r.tenant == t.value.(members := t.value.members + [newId],
                           inviteToken := Some(inv.(acceptedAt := Some(now), acceptedBy := Some(newId))))
    ensures t.Some? && t.value.inviteToken.Some? && t.value.inviteToken.value.acceptedAt.Some? ==> r.JoinFailed?
  {
    if token == "" || tenantId == "" || name == "" || password == "" || confirmPassword == "" then
      JoinFailed(Reply(400, REQUIRED_FIELDS))
    else if password != confirmPassword then JoinFailed(Reply(400, PASSWORDS_NOT_MATCH))
    else if ValidatePassword(password).Thrown? then JoinFailed(Threw(ValidatePassword(password).message))
    else if Utf16Length(Trim(name)) < 2 then JoinFailed(Reply(400, NAME_TOO_SHORT))
    else if t.None? then JoinFailed(Reply(404, TENANT_NOT_FOUND))
    else if t.value.inviteToken.None? then JoinFailed(Reply(401, INVALID_INVITE))
    else
      var inv := t.value.inviteToken.value;
      if inv.token != token then JoinFailed(Reply(401, INVALID_INVITE))
      else if inv.acceptedAt.Some? then JoinFailed(Reply(400, INVITE_ACCEPTED))
      else if TenantController.InviteExpired(inv, now) then JoinFailed(Reply(401, INVITE_EXPIRED))
      else
        match PhoneCheck(users, PhoneToUse(phone, inv))
        case PhoneFailed(reply) => JoinFailed(reply)
        case PhoneOk(p) =>
          if inv.invitedEmail.None? then JoinFailed(SchemaRejected("email"))
          else if EmailTaken(users, inv.invitedEmail.value) then JoinFailed(Reply(400, EMAIL_ALREADY_REGISTERED))
          else if !IsValidEmail(ToLower(inv.invitedEmail.value)) then JoinFailed(SchemaRejected("email"))
          else
            var user := NewUser(newId, name, inv.invitedEmail.value, password, p, code, Some(tenantId));
            AcceptInvite(user, t.value, inv, newId, now)
  }

  /** The checks `registerWithInvite` makes before it looks at the invited e-mail. */
  ghost predicate LinkAccepted(users: seq<UserRecord>, t: Option<TenantController.TenantRecord>, token: string,
                               tenantId: Id, name: string, password: string, confirmPassword: string, phone: string,
                               now: int)
  {
    token != "" && tenantId != "" && name != "" && password != "" && password == confirmPassword &&
    Utf16Length(password) >= 6 && Utf16Length(Trim(name)) >= 2 &&
    t.Some? && t.value.inviteToken.Some? &&
    var inv := t.value.inviteToken.value;
    inv.token == token && inv.acceptedAt.None? && now <= inv.expiresAt &&
    PhoneCheck(users, PhoneToUse(phone, inv)).PhoneOk?
  }

  /**
   * The converse of `JoinSpec`'s contract: when every check passes and the
   * invite names a free, well-formed e-mail, the person joins.
   */
  lemma JoinSucceeds(users: seq<UserRecord>, t: Option<TenantController.TenantRecord>, token: string, tenantId: Id,
                     name: string, password: string, confirmPassword: string, phone: string, newId: Id,
                     code: string, now: int)
    requires LinkAccepted(users, t, token, tenantId, name, password, confirmPassword, phone, now)
    requires var inv := t.value.inviteToken.value;
      inv.invitedEmail.Some? && !EmailTaken(users, inv.invitedEmail.value) &&
      EmailRegex(ToLower(inv.invitedEmail.value))
    ensures JoinSpec(users, t, token, tenantId, name, password, confirmPassword, phone, newId, code, now).Joined?
  {
    var inv := t.value.inviteToken.value;
    assert ValidatePassword(password) == Accepted;
    assert !TenantController.InviteExpired(inv, now);
  }

  /** A workspace with no invite refuses every link as an invalid token. */
  lemma NoInviteIsInvalidToken(users: seq<UserRecord>, t: TenantController.TenantRecord, token: string, tenantId: Id,
                               name: string, password: string, phone: string, newId: Id, code: string, now: int)
    requires token != "" && tenantId != "" && name != "" && Utf16Length(password) >= 6 && Utf16Length(Trim(name)) >= 2
    requires t.inviteToken.None?
    ensures JoinSpec(users, Some(t), token, tenantId, name, password, password, phone, newId, code, now) ==
            JoinFailed(Reply(401, INVALID_INVITE))
  {
    assert ValidatePassword(password) == Accepted;
  }

  /**
   * As the tenant schema is written, a saved invite keeps only its token and
   * expiry. Then no registration through a link succeeds: one that passes
   * every other check fails when the account without an e-mail is saved.
   */
  lemma NoJoinAsWritten(users: seq<UserRecord>, t: Option<TenantController.TenantRecord>, token: string,
                        tenantId: Id, name: string, password: string, confirmPassword: string, phone: string,
                        newId: Id, code: string, now: int)
    requires t.Some? && t.value.inviteToken.Some? ==>
      t.value.inviteToken.value == TenantController.StoredInviteAsWritten(t.value.inviteToken.value)
    ensures JoinSpec(users, t, token, tenantId, name, password, confirmPassword, phone, newId, code, now).JoinFailed?
    ensures LinkAccepted(users, t, token, tenantId, name, password, confirmPassword, phone, now) ==>
      JoinSpec(users, t, token, tenantId, name, password, confirmPassword, phone, newId, code, now) ==
      JoinFailed(SchemaRejected("email"))
  {
    if LinkAccepted(users, t, token, tenantId, name, password, confirmPassword, phone, now) {
      var inv := t.value.inviteToken.value;
      assert ValidatePassword(password) == Accepted;
      assert !TenantController.InviteExpired(inv, now);
      assert inv.invitedEmail.None?;
    }
  }

  /** The successful end of `registerWithInvite`: the invite is marked accepted and the joiner becomes a member. */
  function AcceptInvite(user: UserRecord, t: TenantController.TenantRecord, inv: TenantController.Invite,
                        newId: Id, now: int): (r: JoinOutcome)
    ensures r.Joined? && r.user == user
    ensures r.tenant.members == t.members + [newId]
    ensures r.tenant.inviteToken == Some(inv.(acceptedAt := Some(now), acceptedBy := Some(newId)))
    ensures r.tenant.(members := t.members, inviteToken := t.inviteToken) == t
  {
    Joined(user, t.(members := t.members + [newId],
                    inviteToken := Some(inv.(acceptedAt := Some(now), acceptedBy := Some(newId)))))
  }

  /** An invite lets one person in: the same link is refused afterwards. */
  lemma InviteIsSingleUse(users: seq<UserRecord>, t: TenantController.TenantRecord, token: string, tenantId: Id,
                          name: string, password: string, phone: string, newId: Id, code: string, now: int,
                          name2: string, password2: string, phone2: string, newId2: Id, code2: string, later: int)
    requires JoinSpec(users, Some(t), token, tenantId, name, password, password, phone, newId, code, now).Joined?
    ensures var j := JoinSpec(users, Some(t), token, tenantId, name, password, password, phone, newId, code, now);
      JoinSpec(users + [j.user], Some(j.tenant), token, tenantId, name2, password2, password2, phone2, newId2,
               code2, later).JoinFailed?
  {
  }

  /** The accepted invite: the joiner is appended to the members and recorded on the invite. */
  method RegisterWithInvite(users: seq<UserRecord>, tenant: TenantController.Tenant?, token: string, tenantId: Id,
                            name: string, password: string, confirmPassword: string, phone: string, newId: Id,
                            code: string, now: int) returns (reply: Reply, user: Option<UserRecord>)
    modifies tenant
    ensures var s := JoinSpec(users, old(TenantController.RecordOf(tenant)), token, tenantId, name, password,
                              confirmPassword, phone, newId, code, now);
      (s.JoinFailed? ==> reply == s.reply && user.None? &&
                         TenantController.RecordOf(tenant) == old(TenantController.RecordOf(tenant))) &&
      (s.Joined? ==> reply == Reply(201, WELCOME) && user == Some(s.user) &&
                     TenantController.RecordOf(tenant) == Some(s.tenant))
  {
    var s := JoinSpec(users, TenantController.RecordOf(tenant), token, tenantId, name, password, confirmPassword,
                      phone, newId, code, now);
    if s.JoinFailed? {
      return s.reply, None;
    }
    var inv := tenant.inviteToken.value;
    tenant.inviteToken := Some(inv.(acceptedAt := Some(now), acceptedBy := Some(newId)));
    tenant.members := tenant.members + [newId];
    return Reply(201, WELCOME), Some(s.user);
  }

  // ---------------------------------------------------------------------
  // updateProfile
  // ---------------------------------------------------------------------

  /**
   * `updateProfile`: a name is taken (trimmed) only when its trimmed form
   * has two or more characters; a new phone number must be valid and free
   * and is unverified until its new code is entered; an avatar replaces
   * the old one. Nothing is saved when a check fails.
   */
  function ProfileSpec(rec: Option<UserRecord>, users: seq<UserRecord>, name: string, phone: string, avatar: string,
                       code: string): (r: (Reply, Option<UserRecord>))
    ensures rec.None? ==> r == (Reply(404, USER_NOT_FOUND), rec)
    ensures r.0 != Reply(200, PROFILE_UPDATED) ==> r.1 == rec
    ensures r.0 == Reply(200, PROFILE_UPDATED) ==>
      rec.Some? && r.1.Some? &&
      var before := rec.value;
      var after := r.1.value;
      after.name == (if name != "" && Utf16Length(Trim(name)) >= 2 then Trim(name) else before.name) &&
      after.avatar == (if avatar != "" then Some(avatar) else before.avatar) &&
      (phone == "" || Some(NormalizePhone(phone)) == before.phone ==>
         after.phone == before.phone && after.phoneVerified == before.phoneVerified) &&
      (phone != "" && Some(NormalizePhone(phone)) != before.phone ==>
         after.phone == Some(NormalizePhone(phone)) && !after.phoneVerified &&
         after.phoneVerificationToken == Some(code) && !PhoneTaken(users, NormalizePhone(phone))) &&
      after == before.(name := after.name, phone := after.phone, phoneVerified := after.phoneVerified,
                       phoneVerificationToken := after.phoneVerificationToken, avatar := after.avatar)
    ensures rec.Some? ==>
      (r.0 == Reply(200, PROFILE_UPDATED) <==>
         phone == "" ||
         (IsValidPhone(phone) &&
          (Some(NormalizePhone(phone)) == rec.value.phone || !PhoneTaken(users, NormalizePhone(phone)))))
    ensures rec.Some? && phone != "" && !IsValidPhone(phone) ==> r.0 == Threw(ValidatePhone(phone).message)
    ensures (rec.Some? && phone != "" && IsValidPhone(phone) && Some(NormalizePhone(phone)) != rec.value.phone &&
             PhoneTaken(users, NormalizePhone(phone))) ==> r.0 == Reply(400, PHONE_TAKEN)
  {
    if rec.None? then (Reply(404, USER_NOT_FOUND), rec)
    else
      var u := rec.value;
      var u1 := if name != "" && Utf16Length(Trim(name)) >= 2 then u.(name := Trim(name)) else u;
      if phone != "" && ValidatePhone(phone).Thrown? then (Threw(ValidatePhone(phone).message), rec)
      else if phone != "" && Some(NormalizePhone(phone)) != u.phone && PhoneTaken(users, NormalizePhone(phone)) then
        (Reply(400, PHONE_TAKEN), rec)
      else
        var u2 := if phone != "" && Some(NormalizePhone(phone)) != u.phone then
                    u1.(phone := Some(NormalizePhone(phone)), phoneVerified := false, phoneVerificationToken := Some(code))
                  else u1;
        var u3 := if avatar != "" then u2.(avatar := Some(avatar)) else u2;
        (Reply(200, PROFILE_UPDATED), Some(u3))
  }

  /** Re-entering the stored phone number keeps it verified. */
  lemma SamePhoneStaysVerified(rec: UserRecord, users: seq<UserRecord>, name: string, avatar: string, code: string)
    requires rec.phone.Some? && rec.phoneVerified && rec.phone.value != "" && IsValidPhone(rec.phone.value)
    requires NormalizePhone(rec.phone.value) == rec.phone.value
    ensures var r := ProfileSpec(Some(rec), users, name, rec.phone.value, avatar, code);
      r.0 == Reply(200, PROFILE_UPDATED) && r.1.value.phoneVerified
  {
  }

  /** Writes the fields a profile update may change, and no others. */
  method StoreProfile(user: User, r: UserRecord)
    requires r == user.Record().(name := r.name, phone := r.phone, phoneVerified := r.phoneVerified,
                                 phoneVerificationToken := r.phoneVerificationToken, avatar := r.avatar)
    modifies user
    ensures user.Record() == r
  {
    user.name := r.name;
    user.phone := r.phone;
    user.phoneVerified := r.phoneVerified;
    user.phoneVerificationToken := r.phoneVerificationToken;
    user.avatar := r.avatar;
  }

  method UpdateProfile(user: User?, users: seq<UserRecord>, name: string, phone: string, avatar: string, code: string)
    returns (reply: Reply)
    modifies user
    ensures var s := ProfileSpec(old(RecordOf(user)), users, name, phone, avatar, code);
      reply == s.0 && RecordOf(user) == s.1
  {
    if user == null {
      return Reply(404, USER_NOT_FOUND);
    }
    var u := user.Record();
    ghost var s := ProfileSpec(Some(u), users, name, phone, avatar, code);
    var newPhone := NormalizePhone(phone);
    if phone != "" {
      var v := ValidatePhone(phone);
      if v.Thrown? {
        assert s == (Threw(v.message), Some(u));
        return Threw(v.message);
      }
      if Some(newPhone) != u.phone && PhoneTaken(users, newPhone) {
        assert s == (Reply(400, PHONE_TAKEN), Some(u));
        return Reply(400, PHONE_TAKEN);
      }
    }
    if name != "" && Utf16Length(Trim(name)) >= 2 {
      u := u.(name := Trim(name));
    }
    if phone != "" && Some(newPhone) != u.phone {
      u := u.(phone := Some(newPhone), phoneVerified := false, phoneVerificationToken := Some(code));
    }
    if avatar != "" {
      u := u.(avatar := Some(avatar));
    }
    assert s == (Reply(200, PROFILE_UPDATED), Some(u));
    StoreProfile(user, u);
    return Reply(200, PROFILE_UPDATED);
  }
}
