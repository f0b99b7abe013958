/**
 * The one-time-code record of the OTP store and the store's query by identifier.
 * A record carries an email and a phone slot (either may be null) and, for each of the two
 * kinds, its own code, its own expiry (milliseconds since the epoch) and its own verified flag.
 */
module UserOtpModel {
  import opened Wrappers

  /** The two kinds of identifier: the request field `type` is "EMAIL" or "MOBILE". */
  datatype Kind = Email | Mobile

  function Other(k: Kind): (o: Kind)
    ensures o != k
  {
    match k
    case Email => Mobile
    case Mobile => Email
  }

  /** An identifier value together with its kind: an email address or a phone number. */
  datatype Key = Key(kind: Kind, id: string)

  datatype OtpRecord = OtpRecord(
    email: Option<string>,
    phone: Option<string>,
    mobileOtp: Option<string>,
    emailOtp: Option<string>,
    mobileOtpExpire: Option<nat>,
    emailOtpExpire: Option<nat>,
    isEmailVerified: bool,
    isMobileVerified: bool)

  /** The identifier slot of the given kind. */
  function Slot(r: OtpRecord, k: Kind): Option<string>
  {
    match k
    case Email => r.email
    case Mobile => r.phone
  }

  function CodeOf(r: OtpRecord, k: Kind): Option<string>
  {
    match k
    case Email => r.emailOtp
    case Mobile => r.mobileOtp
  }

  function ExpiryOf(r: OtpRecord, k: Kind): Option<nat>
  {
    match k
    case Email => r.emailOtpExpire
    case Mobile => r.mobileOtpExpire
  }

  function VerifiedOf(r: OtpRecord, k: Kind): bool
  {
    match k
    case Email => r.isEmailVerified
    case Mobile => r.isMobileVerified
  }

  /** A store query `{email: v}` or `{phone: v}` matches a record whose slot holds exactly v. */
  predicate Matches(r: OtpRecord, key: Key)
  {
    Slot(r, key.kind) == Some(key.id)
  }

  /**
   * A record built with only its identifier: every other field takes the schema default
   * (null codes and expiries, both flags false). It matches its own key and no other.
   */
  function NewOtpRecord(key: Key): (r: OtpRecord)
    ensures Slot(r, key.kind) == Some(key.id) && Slot(r, Other(key.kind)) == None
    ensures forall k :: CodeOf(r, k) == None && ExpiryOf(r, k) == None && !VerifiedOf(r, k)
    ensures forall key' :: Matches(r, key') <==> key' == key
  {
    match key.kind
    case Email => OtpRecord(Some(key.id), None, None, None, None, None, false, false)
    case Mobile => OtpRecord(None, Some(key.id), None, None, None, None, false, false)
  }

  /**
   * The record with a fresh code and expiry for kind `k`. The identifiers, both verified
   * flags and the other kind's code and expiry are untouched.
   */
  function WithCode(r: OtpRecord, k: Kind, code: string, expiry: nat): (r': OtpRecord)
    ensures CodeOf(r', k) == Some(code) && ExpiryOf(r', k) == Some(expiry)
    ensures CodeOf(r', Other(k)) == CodeOf(r, Other(k))
    ensures ExpiryOf(r', Other(k)) == ExpiryOf(r, Other(k))
    ensures forall k' :: VerifiedOf(r', k') == VerifiedOf(r, k') && Slot(r', k') == Slot(r, k')
  {
    match k
    case Email => r.(emailOtp := Some(code), emailOtpExpire := Some(expiry))
    case Mobile => r.(mobileOtp := Some(code), mobileOtpExpire := Some(expiry))
  }

  /**
   * The record with kind `k` marked verified. Nothing else changes: identifiers, codes,
   * expiries and the other kind's flag are kept.
   */
  function WithVerified(r: OtpRecord, k: Kind): (r': OtpRecord)
    ensures VerifiedOf(r', k)
    ensures VerifiedOf(r', Other(k)) == VerifiedOf(r, Other(k))
    ensures forall k' :: CodeOf(r', k') == CodeOf(r, k') && ExpiryOf(r', k') == ExpiryOf(r, k')
    ensures forall k' :: Slot(r', k') == Slot(r, k')
  {
    match k
    case Email => r.(isEmailVerified := true)
    case Mobile => r.(isMobileVerified := true)
  }

  /**
   * The store's `findOne`: the position of the first record, in store order, that the query
   * matches, or None when no record matches.
   */
  function FindOne(s: seq<OtpRecord>, key: Key): (r: Option<nat>)
    ensures r.Some? ==> r.value < |s| && Matches(s[r.value], key)
    ensures r.Some? ==> forall j :: 0 <= j < r.value ==> !Matches(s[j], key)
    ensures r.None? <==> forall j :: 0 <= j < |s| ==> !Matches(s[j], key)
  {
    if |s| == 0 then None
    else if Matches(s[0], key) then Some(0)
    else match FindOne(s[1..], key)
      case None => None
      case Some(i) => Some(i + 1)
  }

  /** Whether the store holds a record for the identifier at all, whatever its flags. */
  predicate HasRecord(s: seq<OtpRecord>, key: Key)
    ensures HasRecord(s, key) <==> exists j :: 0 <= j < |s| && Matches(s[j], key)
  {
    FindOne(s, key).Some?
  }

  /** At most one record per email and at most one per phone. */
  ghost predicate UniqueKeys(s: seq<OtpRecord>)
  {
    forall key, i, j :: 0 <= i < |s| && 0 <= j < |s| && Matches(s[i], key) && Matches(s[j], key) ==> i == j
  }

  /** A record holding an identifier of some kind also holds that kind's code and expiry. */
  predicate WellFormed(r: OtpRecord)
  {
    forall k :: Slot(r, k).Some? ==> CodeOf(r, k).Some? && ExpiryOf(r, k).Some?
  }

  ghost predicate AllWellFormed(s: seq<OtpRecord>)
  {
    forall i :: 0 <= i < |s| ==> WellFormed(s[i])
  }

  /** `t` keeps every record of `s` at its position with its identifiers, maybe adding more. */
  ghost predicate KeepsKeys(s: seq<OtpRecord>, t: seq<OtpRecord>)
  {
    |s| <= |t| && forall j, k :: 0 <= j < |s| ==> Slot(t[j], k) == Slot(s[j], k)
  }

  /** Records are never dropped nor re-keyed, so an identifier once present stays present. */
  lemma KeepsKeysKeepsRecords(s: seq<OtpRecord>, t: seq<OtpRecord>, key: Key)
    requires KeepsKeys(s, t)
    requires HasRecord(s, key)
    ensures HasRecord(t, key)
  {
  }
}
