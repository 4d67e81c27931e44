/**
 * Role helpers. The role is the string at `app_metadata.role` of the signed-in
 * user; `None` for the user stands for no session (`null`).
 */
module Roles {
  import opened Wrappers

  /** The parts of a session user the application reads. */
  datatype User = User(
    role: Option<string>,       // app_metadata.role
    email: Option<string>,
    fullName: Option<string>,   // user_metadata.full_name
    avatarUrl: Option<string>)  // user_metadata.avatar_url

  const AdminRole := "admin"
  const DemoAdminRole := "demo_admin"

  predicate IsAdmin(user: Option<User>)
  {
    user.Some? && user.value.role == Some(AdminRole)
  }

  predicate IsDemoAdmin(user: Option<User>)
  {
    user.Some? && user.value.role == Some(DemoAdminRole)
  }

  /** Real admins and demo admins may see the admin area. */
  predicate HasAdminAccess(user: Option<User>)
  {
    IsAdmin(user) || IsDemoAdmin(user)
  }

  /** Without a session nobody is an admin of either kind. */
  lemma NoSessionNoRole()
    ensures !IsAdmin(None) && !IsDemoAdmin(None) && !HasAdminAccess(None)
  {
  }

  /** The two roles are exclusive. */
  lemma AdminAndDemoAdminExclusive(user: Option<User>)
    ensures !(IsAdmin(user) && IsDemoAdmin(user))
  {
    assert AdminRole != DemoAdminRole by { assert AdminRole[0] != DemoAdminRole[0]; }
  }

  /** A demo admin may enter the admin area but is not an admin, so every write is refused. */
  lemma DemoAdminHasAccessButIsNotAdmin(user: Option<User>)
    requires IsDemoAdmin(user)
    ensures HasAdminAccess(user) && !IsAdmin(user)
  {
    AdminAndDemoAdminExclusive(user);
  }

  /**
   * Only `app_metadata.role` matters: two users with the same role get the
   * same answers whatever their email, name or avatar, and a user without a
   * role gets no access.
   */
  lemma RoleAloneDecidesAccess(u1: User, u2: User)
    ensures u1.role == u2.role ==>
      && IsAdmin(Some(u1)) == IsAdmin(Some(u2))
      && IsDemoAdmin(Some(u1)) == IsDemoAdmin(Some(u2))
      && HasAdminAccess(Some(u1)) == HasAdminAccess(Some(u2))
    ensures u1.role.None? ==> !HasAdminAccess(Some(u1))
  {
  }
}
