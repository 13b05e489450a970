/** Authorization decisions: who may use a namespace and who may read,
    write or delete a repository. Each check either allows or fails with
    an HTTP status, 401 or 403. */
module Permissions {
  import opened Common

  /** The outcome of a check: `True`, or the status of the raised error. */
  datatype Outcome = Allowed | Denied(status: nat)

  /** What the checks look up in the database: the organizations, and each
      (user, organization) membership with its role. */
  datatype Directory = Directory(orgs: set<string>, roles: map<(string, string), string>)

  /** The fields of a repository the checks read. */
  datatype Repo = Repo(namespace: string, isPrivate: bool, gated: bool)

  /** The user, `None` when the request carries no user. */
  type User = Option<string>

  const AdminRoles: set<string> := {"admin", "super-admin"}
  const WriteRoles: set<string> := {"member", "admin", "super-admin"}

  /** `get_user_organization`, after `get_organization` found the organization. */
  function Membership(dir: Directory, user: string, org: string): Option<string>
  {
    if org in dir.orgs && (user, org) in dir.roles then Some(dir.roles[(user, org)]) else None
  }

  /** The user owns the namespace or is a member of it, in any role. */
  predicate OwnerOrMember(dir: Directory, namespace: string, user: User)
  {
    user.Some? && (namespace == user.value || Membership(dir, user.value, namespace).Some?)
  }

  /** The user owns the namespace or holds one of `roles` in it. */
  predicate OwnerOrRole(dir: Directory, namespace: string, user: User, roles: set<string>)
  {
    user.Some?
    && (namespace == user.value
        || (Membership(dir, user.value, namespace).Some? && Membership(dir, user.value, namespace).value in roles))
  }

  /** `check_namespace_permission`. */
  function NamespacePermission(dir: Directory, namespace: string, user: User, requireAdmin: bool, isAdmin: bool)
    : (r: Outcome)
    ensures r.Allowed? <==>
              isAdmin
              || (requireAdmin && OwnerOrRole(dir, namespace, user, AdminRoles))
              || (!requireAdmin && OwnerOrMember(dir, namespace, user))
    ensures r.Denied? ==> r.status == 403
  {
    if isAdmin then Allowed
    else if user.None? then Denied(403)
    else if namespace == user.value then Allowed
    else if namespace !in dir.orgs then Denied(403)
    else
      var membership := Membership(dir, user.value, namespace);
      if membership.None? then Denied(403)
      else if requireAdmin && membership.value !in AdminRoles then Denied(403)
      else Allowed
  }

  /** `check_gated_access`; `approved` holds the users with an approved
      access request for this repository. */
  function GatedAccess(repo: Repo, user: User, approved: set<string>): (r: bool)
    ensures r <==> !repo.gated || (user.Some? && user.value in approved)
  {
    if !repo.gated then true
    else if user.None? then false
    else user.value in approved
  }

  /** `check_repo_read_permission`. */
  function ReadPermission(dir: Directory, repo: Repo, user: User, approved: set<string>, isAdmin: bool)
    : (r: Outcome)
    ensures r.Allowed? <==>
              isAdmin || OwnerOrMember(dir, repo.namespace, user)
              || (GatedAccess(repo, user, approved) && !repo.isPrivate)
    ensures r == Denied(401) <==> !isAdmin && user.None? && (repo.gated || repo.isPrivate)
    ensures r.Denied? ==> r.status in {401, 403}
  {
    if isAdmin then Allowed
    else
      var ownerOrMember := OwnerOrMember(dir, repo.namespace, user);
      if repo.gated && !ownerOrMember && user.None? then Denied(401)
      else if repo.gated && !ownerOrMember && !GatedAccess(repo, user, approved) then Denied(403)
      else if !repo.isPrivate then Allowed
      else if user.None? then Denied(401)
      else if ownerOrMember then Allowed
      else Denied(403)
  }

  /** `check_repo_write_permission`. */
  function WritePermission(dir: Directory, repo: Repo, user: User, isAdmin: bool): (r: Outcome)
    ensures r.Allowed? <==> isAdmin || OwnerOrRole(dir, repo.namespace, user, WriteRoles)
    ensures r.Denied? ==> r.status == 403
  {
    if isAdmin then Allowed
    else if user.None? then Denied(403)
    else if repo.namespace == user.value then Allowed
    else
      var membership := Membership(dir, user.value, repo.namespace);
      if membership.Some? && membership.value in WriteRoles then Allowed
      else Denied(403)
  }

  /** `check_repo_delete_permission`. */
  function DeletePermission(dir: Directory, repo: Repo, user: User, isAdmin: bool): (r: Outcome)
    ensures r.Allowed? <==> isAdmin || OwnerOrRole(dir, repo.namespace, user, AdminRoles)
    ensures r.Denied? ==> r.status == 403
  {
    if isAdmin then Allowed
    else if user.None? then Denied(403)
    else if repo.namespace == user.value then Allowed
    else
      var membership := Membership(dir, user.value, repo.namespace);
      if membership.Some? && membership.value in AdminRoles then Allowed
      else Denied(403)
  }

  /** An admin token passes all four checks, whatever the user and repository. */
  lemma AdminBypass(dir: Directory, repo: Repo, namespace: string, user: User, approved: set<string>, requireAdmin: bool)
    ensures NamespacePermission(dir, namespace, user, requireAdmin, true) == Allowed
    ensures ReadPermission(dir, repo, user, approved, true) == Allowed
    ensures WritePermission(dir, repo, user, true) == Allowed
    ensures DeletePermission(dir, repo, user, true) == Allowed
  {
  }

  /** Whoever may delete a repository may also write it, and whoever may
      write it may also read it. */
  lemma DeleteWriteRead(dir: Directory, repo: Repo, user: User, approved: set<string>, isAdmin: bool)
    ensures DeletePermission(dir, repo, user, isAdmin).Allowed? ==> WritePermission(dir, repo, user, isAdmin).Allowed?
    ensures WritePermission(dir, repo, user, isAdmin).Allowed? ==> ReadPermission(dir, repo, user, approved, isAdmin).Allowed?
  {
  }

  /** A visitor may read a private repository of its organization but may
      neither write nor delete it. */
  lemma VisitorReadsOnly(dir: Directory, repo: Repo, user: string, approved: set<string>)
    requires repo.namespace != user && repo.namespace in dir.orgs
    requires (user, repo.namespace) in dir.roles && dir.roles[(user, repo.namespace)] == "visitor"
    ensures ReadPermission(dir, repo, Some(user), approved, false) == Allowed
    ensures WritePermission(dir, repo, Some(user), false) == Denied(403)
    ensures DeletePermission(dir, repo, Some(user), false) == Denied(403)
  {
  }

  /** Requiring admin rights only narrows who may use a namespace. */
  lemma NamespaceAdminNarrows(dir: Directory, namespace: string, user: User, isAdmin: bool)
    ensures NamespacePermission(dir, namespace, user, true, isAdmin).Allowed?
            ==> NamespacePermission(dir, namespace, user, false, isAdmin).Allowed?
  {
  }

  /** Anonymous users read exactly the public, ungated repositories. */
  lemma AnonymousReadsPublic(dir: Directory, repo: Repo, approved: set<string>)
    ensures ReadPermission(dir, repo, None, approved, false).Allowed? <==> !repo.isPrivate && !repo.gated
  {
  }
}
