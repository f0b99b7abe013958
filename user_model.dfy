/**
 * The user record of the identity store: its shape, its defaults and the role enumeration.
 * A record is created once by sign-up and afterwards only its verification flags and its
 * password hash change.
 */
module UserModel {
  import opened Wrappers

  /** The two values the schema admits for `role`: "user" and "admin". */
  datatype Role = RegularUser | Admin

  function RoleName(r: Role): (name: string)
    ensures name == "user" || name == "admin"
    ensures name == "user" <==> r == RegularUser
  {
    match r
    case RegularUser => "user"
    case Admin => "admin"
  }

  /** The role named by a schema string, or None for a string outside the enumeration. */
  function ParseRole(name: string): (r: Option<Role>)
    ensures r.Some? <==> name == "user" || name == "admin"
    ensures r.Some? ==> RoleName(r.value) == name
  {
    if name == "user" then Some(RegularUser)
    else if name == "admin" then Some(Admin)
    else None
  }

  /**
   * A stored user. `id` stands for the document id the store assigns; `password` holds the
   * password hash and is None until a password is set; `balance` is a JavaScript number,
   * modelled as an integer.
   */
  datatype User = User(
    id: nat,
    email: string,
    userName: string,
    firstName: string,
    lastName: string,
    phoneNumber: string,
    imageUrl: string,
    isPhoneVerified: bool,
    isEmailVerified: bool,
    password: Option<string>,
    balance: int,
    role: Role)

  /**
   * The fields a caller hands to the user constructor. The two flags may be omitted, in which
   * case the schema default applies; balance, password and role are never given at creation.
   */
  datatype UserInit = UserInit(
    id: nat,
    email: string,
    userName: string,
    firstName: string,
    lastName: string,
    phoneNumber: string,
    imageUrl: string,
    isPhoneVerified: Option<bool>,
    isEmailVerified: Option<bool>)

  /** The schema's defaults applied to the given fields. */
  function NewUser(init: UserInit): (u: User)
    ensures u.id == init.id && u.email == init.email && u.userName == init.userName
    ensures u.firstName == init.firstName && u.lastName == init.lastName
    ensures u.phoneNumber == init.phoneNumber && u.imageUrl == init.imageUrl
    ensures u.isPhoneVerified <==> init.isPhoneVerified == Some(true)
    ensures u.isEmailVerified <==> init.isEmailVerified == Some(true)
    ensures u.password == None
    ensures u.balance == 0
    ensures u.role == RegularUser
  {
    User(init.id, init.email, init.userName, init.firstName, init.lastName, init.phoneNumber,
         init.imageUrl,
         match init.isPhoneVerified case Some(b) => b case None => false,
         match init.isEmailVerified case Some(b) => b case None => false,
         None, 0, RegularUser)
  }
}
