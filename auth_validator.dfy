/**
 * The request-body schemas of the authentication routes, as predicates over bodies whose
 * fields are either absent (None) or a string. A string field the schema accepts is present
 * and not empty; a required one must be present; a forbidden one must be absent.
 * The email-format rule is not modelled: any non-empty string passes as an email.
 */
module Validators {
  import opened Wrappers
  import opened UserOtpModel

  datatype SignupBody = SignupBody(
    email: Option<string>, userName: Option<string>, firstName: Option<string>,
    lastName: Option<string>, phoneNumber: Option<string>)

  datatype LoginBody = LoginBody(email: Option<string>, password: Option<string>)

  datatype SetPasswordBody = SetPasswordBody(email: Option<string>, password: Option<string>)

  datatype RefreshBody = RefreshBody(refreshToken: Option<string>)

  datatype RequestOtpBody = RequestOtpBody(
    otpType: Option<string>, email: Option<string>, phone: Option<string>)

  datatype VerifyOtpBody = VerifyOtpBody(
    email: Option<string>, phone: Option<string>, otp: Option<string>, otpType: Option<string>)

  /** A required string: present and not the empty string. */
  predicate Required(f: Option<string>)
  {
    f.Some? && f.value != ""
  }

  /** A forbidden field: absent. */
  predicate Forbidden(f: Option<string>)
  {
    f.None?
  }

  const MinPasswordLength: nat := 6
  const OtpLength: nat := 6

  predicate ValidSignup(b: SignupBody)
  {
    Required(b.email) && Required(b.userName) && Required(b.firstName)
    && Required(b.lastName) && Required(b.phoneNumber)
  }

  /** Login asks for an email and a password, with no minimum length on the password. */
  predicate ValidLogin(b: LoginBody)
  {
    Required(b.email) && Required(b.password)
  }

  /** Set-password asks for an email and a password of at least six characters. */
  predicate ValidSetPassword(b: SetPasswordBody)
  {
    Required(b.email) && Required(b.password) && |b.password.value| >= MinPasswordLength
  }

  predicate ValidRefresh(b: RefreshBody)
  {
    Required(b.refreshToken)
  }

  /** The `type` field: exactly "EMAIL" or "MOBILE". */
  function KindOf(otpType: Option<string>): (k: Option<Kind>)
    ensures k == Some(Email) <==> otpType == Some("EMAIL")
    ensures k == Some(Mobile) <==> otpType == Some("MOBILE")
  {
    if otpType == Some("EMAIL") then Some(Email)
    else if otpType == Some("MOBILE") then Some(Mobile)
    else None
  }

  /**
   * The conditional rule on the two identifiers: the email is required when the type is
   * EMAIL and forbidden otherwise; the phone is required when the type is MOBILE and
   * forbidden otherwise.
   */
  predicate IdentifierRule(otpType: Option<string>, email: Option<string>, phone: Option<string>)
  {
    (if otpType == Some("EMAIL") then Required(email) else Forbidden(email))
    && (if otpType == Some("MOBILE") then Required(phone) else Forbidden(phone))
  }

  predicate ValidRequestOtp(b: RequestOtpBody)
    ensures ValidRequestOtp(b) ==> (b.email.Some? <==> b.phone.None?)
  {
    KindOf(b.otpType).Some? && IdentifierRule(b.otpType, b.email, b.phone)
  }

  predicate ValidVerifyOtp(b: VerifyOtpBody)
    ensures ValidVerifyOtp(b) ==> (b.email.Some? <==> b.phone.None?)
  {
    IdentifierRule(b.otpType, b.email, b.phone)
    && Required(b.otp) && |b.otp.value| == OtpLength
    && KindOf(b.otpType).Some?
  }

  /**
   * The identifier a valid body names: of the kind its `type` selects, with the value of the
   * one identifier field it carries.
   */
  function TargetOf(otpType: Option<string>, email: Option<string>, phone: Option<string>): (key: Key)
    requires KindOf(otpType).Some? && IdentifierRule(otpType, email, phone)
    ensures key.kind == KindOf(otpType).value
    ensures key.id != ""
    ensures key.kind == Email ==> email == Some(key.id) && phone == None
    ensures key.kind == Mobile ==> phone == Some(key.id) && email == None
  {
    match KindOf(otpType).value
    case Email => Key(Email, email.value)
    case Mobile => Key(Mobile, phone.value)
  }

  function RequestOtpTarget(b: RequestOtpBody): (key: Key)
    requires ValidRequestOtp(b)
  {
    TargetOf(b.otpType, b.email, b.phone)
  }

  function VerifyOtpTarget(b: VerifyOtpBody): (key: Key)
    requires ValidVerifyOtp(b)
  {
    TargetOf(b.otpType, b.email, b.phone)
  }

  /** The accepted bodies of request-otp are exactly those that name one identifier as the type says. */
  lemma RequestOtpAccepts(b: RequestOtpBody)
    ensures ValidRequestOtp(b) <==>
      || (b.otpType == Some("EMAIL") && Required(b.email) && b.phone == None)
      || (b.otpType == Some("MOBILE") && Required(b.phone) && b.email == None)
  {
  }

  /** The accepted bodies of verify-otp: one identifier as the type says, and a 6-character code. */
  lemma VerifyOtpAccepts(b: VerifyOtpBody)
    ensures ValidVerifyOtp(b) <==>
      && (|| (b.otpType == Some("EMAIL") && Required(b.email) && b.phone == None)
          || (b.otpType == Some("MOBILE") && Required(b.phone) && b.email == None))
      && b.otp.Some? && |b.otp.value| == OtpLength
  {
  }
}
