/** `CheckCredentials`: the ownership guard and the administrator test. */
module Credentials {
  import opened Base
  import opened Entities

  const ADMIN_AUTHORITY: string := "ROLE_ADMIN"

  /** `checkIfAppUserOwnsContact`: the contact's owner has the caller's tsid.
      The owner must be set: the Java code dereferences it. */
  function OwnsContact(caller: AppUser, c: Contact): (owns: bool)
    requires c.owner.Some?
    ensures owns <==> c.owner == Some(caller.tsid)
  {
    c.owner.value == caller.tsid
  }

  /** `checkIfAdmin`: some authority is exactly "ROLE_ADMIN", that is, the caller has a
      role with exactly that name; the comparison is case-sensitive, so "role_admin"
      does not count. */
  function IsAdmin(caller: AppUser): (admin: bool)
    ensures admin <==> exists r :: r in caller.roles && r.roleName == ADMIN_AUTHORITY
  {
    AuthorityIffRole(caller, ADMIN_AUTHORITY);
    exists i :: 0 <= i < |Authorities(caller)| && Authorities(caller)[i] == ADMIN_AUTHORITY
  }

  /** The authority list names exactly the user's roles. */
  lemma AuthorityIffRole(u: AppUser, name: string)
    ensures (exists i :: 0 <= i < |Authorities(u)| && Authorities(u)[i] == name)
      <==> exists r :: r in u.roles && r.roleName == name
  {
    if exists i :: 0 <= i < |Authorities(u)| && Authorities(u)[i] == name {
      var i :| 0 <= i < |Authorities(u)| && Authorities(u)[i] == name;
      assert u.roles[i] in u.roles;
    }
    if exists r :: r in u.roles && r.roleName == name {
      var r :| r in u.roles && r.roleName == name;
      var i :| 0 <= i < |u.roles| && u.roles[i] == r;
      assert Authorities(u)[i] == name;
    }
  }

  /** Ownership ignores roles: granting any role set, even ROLE_ADMIN, to the caller
      changes nothing about which contacts they own. */
  lemma OwnershipIgnoresRoles(caller: AppUser, c: Contact, roles: seq<Role>)
    requires c.owner.Some?
    ensures OwnsContact(caller.(roles := roles), c) <==> OwnsContact(caller, c)
  {
  }

  /** So an administrator does not own a contact whose owner has another tsid. */
  lemma AdminDoesNotOwnOthersContacts(admin: AppUser, c: Contact)
    requires IsAdmin(admin) && c.owner.Some? && c.owner.value != admin.tsid
    ensures !OwnsContact(admin, c)
  {
  }
}
