/**
 * The authentication workflow as a state machine over the two stores: each route handler is a
 * step from the stores before the request to the stores after it, together with the reply.
 * The guards of each handler run in the order the handlers test them, and the first failing
 * guard decides the reply.
 */
module AuthFlow {
  import opened Wrappers
  import opened UserModel
  import opened UserOtpModel
  import opened Validators
  import opened Tokens

  /** An OTP stays valid for ten minutes after it is issued, in milliseconds. */
  const OtpTtlMs: nat := 10 * 60 * 1000

  /** The user table keyed by email, the OTP collection in store order, the next document id. */
  datatype Stores = Stores(users: map<string, User>, otps: seq<OtpRecord>, nextId: nat)

  datatype Error =
    | Invalid          // the body fails its schema (400)
    | Conflict         // sign-up with an email already taken (400)
    | UploadFailed     // the profile image upload threw (500)
    | NotFound         // no user, or no OTP record, for the identifier (404 / 400)
    | Expired          // the OTP's expiry lies in the past (400)
    | Mismatch         // the submitted OTP differs from the stored one (400)
    | Forbidden        // neither the phone nor the email is verified (403)
    | InvalidPassword  // the password does not hash to the stored hash (400)
    | InvalidToken     // the refresh token does not verify (401)
    | DeliveryFailed   // sending the OTP by SMS or email threw (500)
    | ServerError      // comparing against a user with no password threw (500)

  /** The user as login returns it: every public field, and no password. */
  datatype Profile = Profile(
    email: string, firstName: string, lastName: string, userName: string,
    imageUrl: string, phoneNumber: string, userId: nat, balance: int,
    isPhoneVerified: bool, isEmailVerified: bool, role: Role)

  datatype Reply =
    | Created
    | OtpSent
    | OtpVerified
    | Issued(tokens: TokenPair)
    | LoggedIn(tokens: TokenPair, user: Profile)
    | Failed(error: Error)

  /** What became of the optional profile image: none sent, stored at a URL, or the upload threw. */
  datatype Upload = NoImage | Uploaded(url: string) | UploadError

  datatype Step = Step(stores: Stores, reply: Reply)

  function ProfileOf(u: User): Profile
  {
    Profile(u.email, u.firstName, u.lastName, u.userName, u.imageUrl, u.phoneNumber,
            u.id, u.balance, u.isPhoneVerified, u.isEmailVerified, u.role)
  }

  // ---------------------------------------------------------------------------------------
  // The invariant every step keeps

  ghost predicate UsersKeyedByEmail(st: Stores)
  {
    forall e :: e in st.users ==> st.users[e].email == e && st.users[e].id < st.nextId
  }

  /** A user's verified flag is only ever set from the existence of an OTP record for it. */
  ghost predicate FlagsBackedByRecords(st: Stores)
  {
    forall e :: e in st.users ==>
      && (st.users[e].isPhoneVerified ==> HasRecord(st.otps, Key(Mobile, st.users[e].phoneNumber)))
      && (st.users[e].isEmailVerified ==> HasRecord(st.otps, Key(Email, e)))
  }

  ghost predicate Invariant(st: Stores)
  {
    UsersKeyedByEmail(st) && FlagsBackedByRecords(st) && UniqueKeys(st.otps) && AllWellFormed(st.otps)
  }

  // ---------------------------------------------------------------------------------------
  // Sign-up

  /** The shape of the user sign-up creates from a valid body. */
  ghost predicate SignupUser(st: Stores, b: SignupBody, image: Upload, u: User)
    requires ValidSignup(b)
  {
    && u.id == st.nextId
    && u.email == b.email.value && u.userName == b.userName.value
    && u.firstName == b.firstName.value && u.lastName == b.lastName.value
    && u.phoneNumber == b.phoneNumber.value
    && u.imageUrl == (if image.Uploaded? then image.url else "")
    && (u.isPhoneVerified <==>
          exists j :: 0 <= j < |st.otps| && Matches(st.otps[j], Key(Mobile, b.phoneNumber.value)))
    && (u.isEmailVerified <==>
          exists j :: 0 <= j < |st.otps| && Matches(st.otps[j], Key(Email, b.email.value)))
    && u.password == None && u.balance == 0 && u.role == RegularUser
  }

  function SignupStep(st: Stores, b: SignupBody, image: Upload): (r: Step)
    ensures !ValidSignup(b) ==> r.reply == Failed(Invalid)
    ensures ValidSignup(b) ==> (r.reply == Failed(Conflict) <==> b.email.value in st.users)
    ensures ValidSignup(b) && b.email.value !in st.users ==>
              (r.reply == Failed(UploadFailed) <==> image.UploadError?)
              && (r.reply == Created <==> !image.UploadError?)
    ensures r.reply != Created ==> r.stores == st
    ensures r.reply == Created ==>
              && r.stores.otps == st.otps && r.stores.nextId == st.nextId + 1
              && b.email.value in r.stores.users
              && r.stores.users == st.users[b.email.value := r.stores.users[b.email.value]]
              && SignupUser(st, b, image, r.stores.users[b.email.value])
  {
    if !ValidSignup(b) then Step(st, Failed(Invalid))
    else
      var email := b.email.value;
      if email in st.users then Step(st, Failed(Conflict))
      else if image.UploadError? then Step(st, Failed(UploadFailed))
      else
        var url := if image.Uploaded? then image.url else "";
        var phoneHit := FindOne(st.otps, Key(Mobile, b.phoneNumber.value));
        var emailHit := FindOne(st.otps, Key(Email, email));
        var u := NewUser(UserInit(st.nextId, email, b.userName.value, b.firstName.value,
                                  b.lastName.value, b.phoneNumber.value, url,
                                  Some(phoneHit.Some?), Some(emailHit.Some?)));
        Step(Stores(st.users[email := u], st.otps, st.nextId + 1), Created)
  }

  lemma SignupKeepsInvariant(st: Stores, b: SignupBody, image: Upload)
    requires Invariant(st)
    ensures Invariant(SignupStep(st, b, image).stores)
  {
  }

  /** Once sign-up has created an account, a second sign-up with that email conflicts and changes nothing. */
  lemma SignupTwiceConflicts(st: Stores, b: SignupBody, image: Upload, b': SignupBody, image': Upload)
    requires SignupStep(st, b, image).reply == Created
    requires ValidSignup(b') && b'.email == b.email
    ensures var st' := SignupStep(st, b, image).stores;
            SignupStep(st', b', image') == Step(st', Failed(Conflict))
  {
  }

  // ---------------------------------------------------------------------------------------
  // Request-otp

  /** Store the code and expiry on the record for `key`, creating that record only if there is none. */
  function Upsert(s: seq<OtpRecord>, key: Key, code: string, expiry: nat): (t: seq<OtpRecord>)
    ensures KeepsKeys(s, t)
    ensures |t| == if HasRecord(s, key) then |s| else |s| + 1
    ensures forall j :: 0 <= j < |s| && !Matches(s[j], key) ==> t[j] == s[j]
  {
    match FindOne(s, key)
    case Some(i) => s[i := WithCode(s[i], key.kind, code, expiry)]
    case None => s + [WithCode(NewOtpRecord(key), key.kind, code, expiry)]
  }

  function RequestOtpStep(st: Stores, b: RequestOtpBody, code: string, now: nat, delivered: bool): (r: Step)
    ensures r.stores.users == st.users && r.stores.nextId == st.nextId
    ensures !ValidRequestOtp(b) ==> r == Step(st, Failed(Invalid))
    ensures ValidRequestOtp(b) ==> r.reply == if delivered then OtpSent else Failed(DeliveryFailed)
  {
    if !ValidRequestOtp(b) then Step(st, Failed(Invalid))
    else
      var key := RequestOtpTarget(b);
      var otps := Upsert(st.otps, key, code, now + OtpTtlMs);
      Step(st.(otps := otps), if delivered then OtpSent else Failed(DeliveryFailed))
  }

  /** After an upsert the query for `key` finds the record the upsert wrote. */
  lemma {:induction false} UpsertFinds(s: seq<OtpRecord>, key: Key, code: string, expiry: nat)
    ensures var t := Upsert(s, key, code, expiry);
            && FindOne(t, key).Some?
            && (HasRecord(s, key) ==> FindOne(t, key) == FindOne(s, key))
            && (!HasRecord(s, key) ==> FindOne(t, key) == Some(|s|))
  {
    var t := Upsert(s, key, code, expiry);
    match FindOne(s, key)
    case Some(i) =>
      assert Matches(t[i], key) by {
        assert Slot(t[i], key.kind) == Slot(s[i], key.kind);
      }
      forall j | 0 <= j < i ensures !Matches(t[j], key) {
        assert t[j] == s[j];
      }
      FindOneIsFirst(t, key, i);
    case None =>
      assert Matches(t[|s|], key);
      forall j | 0 <= j < |s| ensures !Matches(t[j], key) {
        assert t[j] == s[j];
      }
      FindOneIsFirst(t, key, |s|);
  }

  /** The first matching position is what the query returns. */
  lemma FindOneIsFirst(s: seq<OtpRecord>, key: Key, i: nat)
    requires i < |s| && Matches(s[i], key)
    requires forall j :: 0 <= j < i ==> !Matches(s[j], key)
    ensures FindOne(s, key) == Some(i)
  {
  }

  /**
   * Request-otp reuses the record for the identifier or appends one if none exists; only that
   * kind's code and expiry change (to the new code and now + 10 minutes); the identifiers,
   * both verified flags and the other kind's code and expiry are kept (a new record starts
   * from the defaults); every other record is untouched.
   */
  lemma RequestOtpUpserts(st: Stores, b: RequestOtpBody, code: string, now: nat, delivered: bool)
    requires ValidRequestOtp(b)
    ensures var t := RequestOtpStep(st, b, code, now, delivered).stores.otps;
            var key := RequestOtpTarget(b);
            && (HasRecord(st.otps, key) ==> |t| == |st.otps|)
            && (!HasRecord(st.otps, key) ==> |t| == |st.otps| + 1)
            && FindOne(t, key).Some?
            && var i := FindOne(t, key).value;
               && CodeOf(t[i], key.kind) == Some(code)
               && ExpiryOf(t[i], key.kind) == Some(now + OtpTtlMs)
               && (i < |st.otps| ==>
                     && CodeOf(t[i], Other(key.kind)) == CodeOf(st.otps[i], Other(key.kind))
                     && ExpiryOf(t[i], Other(key.kind)) == ExpiryOf(st.otps[i], Other(key.kind))
                     && (forall k :: VerifiedOf(t[i], k) == VerifiedOf(st.otps[i], k))
                     && (forall k :: Slot(t[i], k) == Slot(st.otps[i], k)))
               && (i == |st.otps| ==>
                     && CodeOf(t[i], Other(key.kind)) == None
                     && ExpiryOf(t[i], Other(key.kind)) == None
                     && (forall k :: !VerifiedOf(t[i], k))
                     && (forall key' :: Matches(t[i], key') <==> key' == key))
               && (forall j :: 0 <= j < |st.otps| && j != i ==> t[j] == st.otps[j])
  {
    var key := RequestOtpTarget(b);
    UpsertFinds(st.otps, key, code, now + OtpTtlMs);
    var r := NewOtpRecord(key);
    assert CodeOf(r, Other(key.kind)) == None && ExpiryOf(r, Other(key.kind)) == None;
  }

  /** Request-otp never creates a second record for an identifier and never drops or re-keys one. */
  lemma RequestOtpKeepsInvariant(st: Stores, b: RequestOtpBody, code: string, now: nat, delivered: bool)
    requires Invariant(st)
    ensures Invariant(RequestOtpStep(st, b, code, now, delivered).stores)
  {
  }

  // ---------------------------------------------------------------------------------------
  // Verify-otp

  function VerifyOtpStep(st: Stores, b: VerifyOtpBody, now: nat): (r: Step)
    requires AllWellFormed(st.otps)
    ensures r.stores.users == st.users && r.stores.nextId == st.nextId
    ensures r.reply != OtpVerified ==> r.stores == st
    ensures !ValidVerifyOtp(b) ==> r.reply == Failed(Invalid)
    ensures ValidVerifyOtp(b) ==>
              var key := VerifyOtpTarget(b);
              && (r.reply == Failed(NotFound) <==> !HasRecord(st.otps, key))
              && (HasRecord(st.otps, key) ==>
                    var i := FindOne(st.otps, key).value;
                    var rec := st.otps[i];
                    && ExpiryOf(rec, key.kind).Some?
                    && (r.reply == Failed(Expired) <==> now > ExpiryOf(rec, key.kind).value)
                    && (r.reply == Failed(Mismatch) <==>
                          now <= ExpiryOf(rec, key.kind).value && CodeOf(rec, key.kind) != Some(b.otp.value))
                    && (r.reply == OtpVerified <==>
                          now <= ExpiryOf(rec, key.kind).value && CodeOf(rec, key.kind) == Some(b.otp.value))
                    && (r.reply == OtpVerified ==> r.stores.otps == st.otps[i := WithVerified(rec, key.kind)]))
  {
    if !ValidVerifyOtp(b) then Step(st, Failed(Invalid))
    else
      var key := VerifyOtpTarget(b);
      match FindOne(st.otps, key)
      case None => Step(st, Failed(NotFound))
      case Some(i) =>
        var rec := st.otps[i];
        assert WellFormed(rec) && Slot(rec, key.kind).Some?;
        var expiry := ExpiryOf(rec, key.kind).value;
        if now > expiry then Step(st, Failed(Expired))
        else if CodeOf(rec, key.kind) != Some(b.otp.value) then Step(st, Failed(Mismatch))
        else Step(st.(otps := st.otps[i := WithVerified(rec, key.kind)]), OtpVerified)
  }

  lemma VerifyOtpKeepsInvariant(st: Stores, b: VerifyOtpBody, now: nat)
    requires Invariant(st)
    ensures Invariant(VerifyOtpStep(st, b, now).stores)
  {
    var r := VerifyOtpStep(st, b, now);
    if r.reply == OtpVerified {
      var key := VerifyOtpTarget(b);
      var i := FindOne(st.otps, key).value;
      var s, t := st.otps, r.stores.otps;
      assert forall n, k :: 0 <= n < |s| ==> Slot(t[n], k) == Slot(s[n], k);
      assert KeepsKeys(s, t);
      forall key', m, n | 0 <= m < |t| && 0 <= n < |t| && Matches(t[m], key') && Matches(t[n], key')
        ensures m == n
      {
        assert Matches(s[m], key') && Matches(s[n], key');
      }
      forall n | 0 <= n < |t| ensures WellFormed(t[n]) {
        assert WellFormed(s[n]);
      }
      forall e | e in st.users
        ensures (st.users[e].isPhoneVerified ==> HasRecord(t, Key(Mobile, st.users[e].phoneNumber)))
        ensures (st.users[e].isEmailVerified ==> HasRecord(t, Key(Email, e)))
      {
        if st.users[e].isPhoneVerified {
          KeepsKeysKeepsRecords(s, t, Key(Mobile, st.users[e].phoneNumber));
        }
        if st.users[e].isEmailVerified {
          KeepsKeysKeepsRecords(s, t, Key(Email, e));
        }
      }
    }
  }

  /**
   * A code issued at time T for an identifier is accepted up to and including T + 10 minutes,
   * rejected as expired after that, and rejected as a mismatch when a different code is sent
   * in time.
   */
  lemma RequestThenVerify(st: Stores, rb: RequestOtpBody, code: string, t0: nat, delivered: bool,
                          vb: VerifyOtpBody, now: nat)
    requires Invariant(st)
    requires ValidRequestOtp(rb) && ValidVerifyOtp(vb)
    requires VerifyOtpTarget(vb) == RequestOtpTarget(rb)
    ensures var st' := RequestOtpStep(st, rb, code, t0, delivered).stores;
            var reply := VerifyOtpStep(st', vb, now).reply;
            && (now > t0 + OtpTtlMs ==> reply == Failed(Expired))
            && (now <= t0 + OtpTtlMs && vb.otp == Some(code) ==> reply == OtpVerified)
            && (now <= t0 + OtpTtlMs && vb.otp != Some(code) ==> reply == Failed(Mismatch))
  {
    RequestOtpKeepsInvariant(st, rb, code, t0, delivered);
    RequestOtpUpserts(st, rb, code, t0, delivered);
  }

  /** A verified code leaves the record verified for its kind; the other kind's flag is kept. */
  lemma VerifyOtpFlipsOneFlag(st: Stores, b: VerifyOtpBody, now: nat)
    requires AllWellFormed(st.otps)
    requires VerifyOtpStep(st, b, now).reply == OtpVerified
    ensures var key := VerifyOtpTarget(b);
            var t := VerifyOtpStep(st, b, now).stores.otps;
            var i := FindOne(st.otps, key).value;
            && |t| == |st.otps|
            && VerifiedOf(t[i], key.kind)
            && VerifiedOf(t[i], Other(key.kind)) == VerifiedOf(st.otps[i], Other(key.kind))
            && (forall k :: CodeOf(t[i], k) == CodeOf(st.otps[i], k) && ExpiryOf(t[i], k) == ExpiryOf(st.otps[i], k))
            && (forall k :: Slot(t[i], k) == Slot(st.otps[i], k))
            && (forall j :: 0 <= j < |t| && j != i ==> t[j] == st.otps[j])
  {
  }

  // ---------------------------------------------------------------------------------------
  // Set-password

  /**
   * The user with both flags re-derived from the existence of an OTP record for the user's
   * phone and for the requested email; every other field is kept.
   */
  function Refreshed(u: User, email: string, otps: seq<OtpRecord>): (v: User)
    ensures v.isPhoneVerified <==> exists j :: 0 <= j < |otps| && Matches(otps[j], Key(Mobile, u.phoneNumber))
    ensures v.isEmailVerified <==> exists j :: 0 <= j < |otps| && Matches(otps[j], Key(Email, email))
    ensures v.(isPhoneVerified := u.isPhoneVerified, isEmailVerified := u.isEmailVerified) == u
  {
    u.(isPhoneVerified := HasRecord(otps, Key(Mobile, u.phoneNumber)),
       isEmailVerified := HasRecord(otps, Key(Email, email)))
  }

  /**
   * Set-password refreshes the user's flags and stores them even when it then refuses; the
   * refusal is decided by the flags as they were before the refresh.
   */
  function SetPasswordStep(st: Stores, b: SetPasswordBody, hash: string -> string, iss: Issuer): (r: Step)
    ensures r.stores.otps == st.otps && r.stores.nextId == st.nextId
    ensures !ValidSetPassword(b) ==> r == Step(st, Failed(Invalid))
    ensures ValidSetPassword(b) && b.email.value !in st.users ==> r == Step(st, Failed(NotFound))
    ensures ValidSetPassword(b) && b.email.value in st.users ==>
              var u := st.users[b.email.value];
              && (r.reply == Failed(Forbidden) <==> !u.isPhoneVerified && !u.isEmailVerified)
              && (r.reply == Failed(Forbidden) ==>
                    r.stores.users == st.users[b.email.value := Refreshed(u, b.email.value, st.otps)])
              && (r.reply != Failed(Forbidden) ==>
                    && r.reply == Issued(Issue(iss, ClaimsOf(u)))
                    && r.stores.users ==
                         st.users[b.email.value := Refreshed(u, b.email.value, st.otps).(password := Some(hash(b.password.value)))])
  {
    if !ValidSetPassword(b) then Step(st, Failed(Invalid))
    else
      var email := b.email.value;
      if email !in st.users then Step(st, Failed(NotFound))
      else
        var u := st.users[email];
        var users := st.users[email := Refreshed(u, email, st.otps)];
        if !u.isPhoneVerified && !u.isEmailVerified then
          Step(st.(users := users), Failed(Forbidden))
        else
          var saved := users[email].(password := Some(hash(b.password.value)));
          Step(st.(users := users[email := saved]), Issued(Issue(iss, ClaimsOf(u))))
  }

  lemma SetPasswordKeepsInvariant(st: Stores, b: SetPasswordBody, hash: string -> string, iss: Issuer)
    requires Invariant(st)
    ensures Invariant(SetPasswordStep(st, b, hash, iss).stores)
  {
  }

  /**
   * A request refused only because the stored flags were stale succeeds when repeated: the
   * refusal stored the refreshed flags.
   */
  lemma SetPasswordRetry(st: Stores, b: SetPasswordBody, hash: string -> string, iss: Issuer)
    requires ValidSetPassword(b) && b.email.value in st.users
    requires SetPasswordStep(st, b, hash, iss).reply == Failed(Forbidden)
    requires var u := st.users[b.email.value];
             HasRecord(st.otps, Key(Mobile, u.phoneNumber)) || HasRecord(st.otps, Key(Email, b.email.value))
    ensures SetPasswordStep(SetPasswordStep(st, b, hash, iss).stores, b, hash, iss).reply.Issued?
  {
  }

  // ---------------------------------------------------------------------------------------
  // Login

  /** Login reads the user table and changes nothing. */
  function LoginReply(st: Stores, b: LoginBody, hash: string -> string, iss: Issuer): (reply: Reply)
    ensures !ValidLogin(b) ==> reply == Failed(Invalid)
    ensures ValidLogin(b) ==> (reply == Failed(NotFound) <==> b.email.value !in st.users)
    ensures ValidLogin(b) && b.email.value in st.users ==>
              var u := st.users[b.email.value];
              && (reply == Failed(Forbidden) <==> !u.isPhoneVerified && !u.isEmailVerified)
              && (u.isPhoneVerified || u.isEmailVerified ==>
                    && (reply == Failed(ServerError) <==> u.password == None)
                    && (reply == Failed(InvalidPassword) <==>
                          u.password.Some? && hash(b.password.value) != u.password.value)
                    && (reply.LoggedIn? <==>
                          u.password.Some? && hash(b.password.value) == u.password.value)
                    && (reply.LoggedIn? ==>
                          reply == LoggedIn(Issue(iss, ClaimsOf(u)), ProfileOf(u))))
  {
    if !ValidLogin(b) then Failed(Invalid)
    else
      var email := b.email.value;
      if email !in st.users then Failed(NotFound)
      else
        var u := st.users[email];
        if !u.isPhoneVerified && !u.isEmailVerified then Failed(Forbidden)
        else match u.password
          case None => Failed(ServerError)
          case Some(stored) =>
            if hash(b.password.value) != stored then Failed(InvalidPassword)
            else LoggedIn(Issue(iss, ClaimsOf(u)), ProfileOf(u))
  }

  /** The profile login returns carries the stored user's public fields unchanged. */
  lemma LoginProfile(st: Stores, b: LoginBody, hash: string -> string, iss: Issuer)
    requires LoginReply(st, b, hash, iss).LoggedIn?
    ensures var p := LoginReply(st, b, hash, iss).user;
            var u := st.users[b.email.value];
            && p.email == u.email && p.userName == u.userName && p.userId == u.id
            && p.phoneNumber == u.phoneNumber && p.balance == u.balance && p.role == u.role
            && p.isPhoneVerified == u.isPhoneVerified && p.isEmailVerified == u.isEmailVerified
            && p.firstName == u.firstName && p.lastName == u.lastName && p.imageUrl == u.imageUrl
  {
  }

  /**
   * After a successful set-password, logging in with the same email and password succeeds;
   * a password with a different hash is refused as invalid.
   */
  lemma SetPasswordThenLogin(st: Stores, b: SetPasswordBody, hash: string -> string, iss: Issuer, pw: string)
    requires Invariant(st)
    requires SetPasswordStep(st, b, hash, iss).reply.Issued?
    requires pw != ""
    ensures var st' := SetPasswordStep(st, b, hash, iss).stores;
            var reply := LoginReply(st', LoginBody(b.email, Some(pw)), hash, iss);
            && (hash(pw) == hash(b.password.value) ==> reply.LoggedIn?)
            && (hash(pw) != hash(b.password.value) ==> reply == Failed(InvalidPassword))
  {
  }

  /** Login refuses an account with neither flag set, whatever password is given. */
  lemma LoginUnverifiedForbidden(st: Stores, b: LoginBody, hash: string -> string, iss: Issuer)
    requires ValidLogin(b) && b.email.value in st.users
    requires !st.users[b.email.value].isPhoneVerified && !st.users[b.email.value].isEmailVerified
    ensures forall pw :: pw != "" ==>
              LoginReply(st, LoginBody(b.email, Some(pw)), hash, iss) == Failed(Forbidden)
  {
  }

  // ---------------------------------------------------------------------------------------
  // Refresh-token

  /** Refresh touches neither store: it re-mints a pair from the claims the verifier decodes. */
  function RefreshReply(b: RefreshBody, iss: Issuer): (reply: Reply)
    ensures !ValidRefresh(b) ==> reply == Failed(Invalid)
    ensures ValidRefresh(b) ==>
              match iss.verifyRefresh(b.refreshToken.value)
              case None => reply == Failed(InvalidToken)
              case Some(c) => reply == Issued(Issue(iss, c))
  {
    if !ValidRefresh(b) then Failed(Invalid)
    else match iss.verifyRefresh(b.refreshToken.value)
      case None => Failed(InvalidToken)
      case Some(c) => Issued(Issue(iss, c))
  }

  /** With a sound verifier, a refresh token from set-password or login yields a pair for the same user. */
  lemma RefreshAcceptsIssued(iss: Issuer, u: User)
    requires Sound(iss)
    requires iss.signRefresh(ClaimsOf(u)) != ""
    ensures RefreshReply(RefreshBody(Some(Issue(iss, ClaimsOf(u)).refreshToken)), iss)
            == Issued(Issue(iss, ClaimsOf(u)))
  {
  }
}
