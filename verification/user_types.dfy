/** Record shapes of the user API, and the one rule both the users table and
    the confirmation dialog use to read a user's status. */
module UserTypes {
  import opened Wrappers

  /** A user as the API returns it; `id` is the response's `_id`. */
  datatype UserResponse = UserResponse(
    id: string,
    firstName: string,
    lastName: string,
    email: string,
    nic: string,
    phone: string,
    role: string,
    isActive: Option<bool>,
    createdAt: Option<string>,
    updatedAt: Option<string>)

  /** The body of an update request; an absent field is not sent. */
  datatype UpdateUserBody = UpdateUserBody(
    firstName: Option<string>,
    lastName: Option<string>,
    email: Option<string>,
    nic: Option<string>,
    phone: Option<string>,
    role: Option<string>,
    password: Option<string>,
    isActive: Option<bool>)

  /** The user record the add/edit dialog works on. */
  datatype User = User(
    id: string,
    firstName: string,
    lastName: string,
    email: string,
    nic: string,
    phone: string,
    role: string)

  /** `user.isActive !== false`: only an explicit `false` makes a user inactive. */
  predicate IsActive(u: UserResponse) {
    u.isActive != Some(false)
  }

  lemma IsActiveMeaning(u: UserResponse)
    ensures IsActive(u) <==> u.isActive.None? || u.isActive.value
    ensures u.isActive.None? ==> IsActive(u)
  {
  }
}
