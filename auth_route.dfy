/**
 * The authentication routes as a service object that owns the two stores. Each route is a
 * method that runs the handler's guards in order, returns at the first one that fails, and
 * otherwise updates the stores in place. Each method is proved to produce exactly the step
 * that module AuthFlow describes, and to keep the store invariant.
 */
module AuthRoutes {
  import opened Wrappers
  import opened UserModel
  import opened UserOtpModel
  import opened Validators
  import opened Tokens
  import opened AuthFlow

  class AuthService {
    var users: map<string, User>
    var otps: seq<OtpRecord>
    var nextId: nat

    /** The password hash (the comparison is equality of hashes). */
    const hash: string -> string
    /** The token signers and the refresh-token verifier. */
    const issuer: Issuer

    function Stores(): Stores
      reads this
    {
      AuthFlow.Stores(users, otps, nextId)
    }

    ghost predicate Valid()
      reads this
    {
      Invariant(Stores())
    }

    constructor (hash: string -> string, issuer: Issuer)
      ensures Valid()
      ensures users == map[] && otps == [] && nextId == 0
      ensures this.hash == hash && this.issuer == issuer
    {
      this.hash := hash;
      this.issuer := issuer;
      users := map[];
      otps := [];
      nextId := 0;
    }

    /** POST /signup; `image` is what became of the optional image upload. */
    method Signup(body: SignupBody, image: Upload) returns (reply: Reply)
      requires Valid()
      modifies this
      ensures Valid()
      ensures Step(Stores(), reply) == SignupStep(old(Stores()), body, image)
    {
      SignupKeepsInvariant(Stores(), body, image);
      if !ValidSignup(body) {
        return Failed(Invalid);
      }
      var email := body.email.value;
      if email in users {
        return Failed(Conflict);
      }
      var imageUrl := "";
      match image {
        case UploadError => return Failed(UploadFailed);
        case Uploaded(url) => imageUrl := url;
        case NoImage =>
      }
      var phoneHit := FindOne(otps, Key(Mobile, body.phoneNumber.value));
      var emailHit := FindOne(otps, Key(Email, email));
      var user := NewUser(UserInit(nextId, email, body.userName.value, body.firstName.value,
                                   body.lastName.value, body.phoneNumber.value, imageUrl,
                                   Some(phoneHit.Some?), Some(emailHit.Some?)));
      users := users[email := user];
      nextId := nextId + 1;
      reply := Created;
    }

    /**
     * POST /request-otp; `code` is the generated one-time code, `now` the clock in
     * milliseconds, `delivered` whether sending the code by SMS or email succeeded.
     */
    method RequestOtp(body: RequestOtpBody, code: string, now: nat, delivered: bool) returns (reply: Reply)
      requires Valid()
      modifies this
      ensures Valid()
      ensures Step(Stores(), reply) == RequestOtpStep(old(Stores()), body, code, now, delivered)
    {
      RequestOtpKeepsInvariant(Stores(), body, code, now, delivered);
      if !ValidRequestOtp(body) {
        return Failed(Invalid);
      }
      var key := RequestOtpTarget(body);
      var expiresAt := now + OtpTtlMs;
      var existing := FindOne(otps, key);
      match existing {
        case Some(i) =>
          otps := otps[i := WithCode(otps[i], key.kind, code, expiresAt)];
        case None =>
          otps := otps + [WithCode(NewOtpRecord(key), key.kind, code, expiresAt)];
      }
      if !delivered {
        return Failed(DeliveryFailed);
      }
      reply := OtpSent;
    }

    /** POST /verify-otp at time `now`. */
    method VerifyOtp(body: VerifyOtpBody, now: nat) returns (reply: Reply)
      requires Valid()
      modifies this
      ensures Valid()
      ensures Step(Stores(), reply) == VerifyOtpStep(old(Stores()), body, now)
    {
      VerifyOtpKeepsInvariant(Stores(), body, now);
      if !ValidVerifyOtp(body) {
        return Failed(Invalid);
      }
      var key := VerifyOtpTarget(body);
      var found := FindOne(otps, key);
      if found.None? {
        return Failed(NotFound);
      }
      var i := found.value;
      assert WellFormed(otps[i]) && Slot(otps[i], key.kind).Some?;
      if now > ExpiryOf(otps[i], key.kind).value {
        return Failed(Expired);
      }
      if CodeOf(otps[i], key.kind) != Some(body.otp.value) {
        return Failed(Mismatch);
      }
      otps := otps[i := WithVerified(otps[i], key.kind)];
      reply := OtpVerified;
    }

    /** POST /set-password. */
    method SetPassword(body: SetPasswordBody) returns (reply: Reply)
      requires Valid()
      modifies this
      ensures Valid()
      ensures Step(Stores(), reply) == SetPasswordStep(old(Stores()), body, hash, issuer)
    {
      SetPasswordKeepsInvariant(Stores(), body, hash, issuer);
      if !ValidSetPassword(body) {
        return Failed(Invalid);
      }
      var email := body.email.value;
      if email !in users {
        return Failed(NotFound);
      }
      // The document as loaded; the gate below reads its flags, not the refreshed ones.
      var user := users[email];
      var phoneHit := HasRecord(otps, Key(Mobile, user.phoneNumber));
      var emailHit := HasRecord(otps, Key(Email, email));
      users := users[email := users[email].(isPhoneVerified := phoneHit, isEmailVerified := emailHit)];
      if !user.isPhoneVerified && !user.isEmailVerified {
        return Failed(Forbidden);
      }
      // Saving the loaded document writes only the field it changed: the password.
      users := users[email := users[email].(password := Some(hash(body.password.value)))];
      reply := Issued(Issue(issuer, ClaimsOf(user)));
    }

    /** POST /login; it only reads the stores. */
    method Login(body: LoginBody) returns (reply: Reply)
      ensures reply == LoginReply(Stores(), body, hash, issuer)
    {
      if !ValidLogin(body) {
        return Failed(Invalid);
      }
      var email := body.email.value;
      if email !in users {
        return Failed(NotFound);
      }
      var user := users[email];
      if !user.isPhoneVerified && !user.isEmailVerified {
        return Failed(Forbidden);
      }
      if user.password.None? {
        return Failed(ServerError);
      }
      if hash(body.password.value) != user.password.value {
        return Failed(InvalidPassword);
      }
      reply := LoggedIn(Issue(issuer, ClaimsOf(user)), ProfileOf(user));
    }

    /** POST /refresh-token; it touches neither store. */
    method RefreshToken(body: RefreshBody) returns (reply: Reply)
      ensures reply == RefreshReply(body, issuer)
    {
      if !ValidRefresh(body) {
        return Failed(Invalid);
      }
      var claims := issuer.verifyRefresh(body.refreshToken.value);
      if claims.None? {
        return Failed(InvalidToken);
      }
      reply := Issued(Issue(issuer, claims.value));
    }
  }
}
