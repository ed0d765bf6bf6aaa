/** Permission matching and the check that a new token holds no more than its maker. */
module Permissions {
  import opened Wrappers
  import opened Ids

  datatype Resource = Resource(kind: string, id: Option<Id>, org: Option<Id>)

  datatype Permission = Permission(action: string, resource: Resource)

  const INSTANCE := "instance"

  const ACTIONS := {"read", "write"}

  const KINDS := {
    "authorizations", "buckets", "dashboards", "orgs", "sources", "tasks", "telegrafs", "users", "variables",
    "scrapers", "secrets", "labels", "views", "documents", "notificationRules", "notificationEndpoints", "checks",
    "dbrp", "notebooks", "annotations", "remotes", "replications", INSTANCE
  }

  /** Permission.Valid: known kind and action, and no zero id. */
  predicate Known(p: Permission) {
    && p.resource.kind in KINDS && p.action in ACTIONS
    && (p.resource.org.Some? ==> Valid(p.resource.org.value))
    && (p.resource.id.Some? ==> Valid(p.resource.id.value))
  }

  /** matchesV1, in the order the source tests. */
  predicate Matches(p: Permission, perm: Permission) {
    if p.action != perm.action then false
    else if p.resource.kind == INSTANCE then true
    else if p.resource.kind != perm.resource.kind then false
    else if p.resource.org.None? && p.resource.id.None? then true
    else if p.resource.org.Some? && p.resource.id.None? && perm.resource.org == p.resource.org then true
    else p.resource.id.Some? && perm.resource.id == p.resource.id
  }

  ghost predicate Allowed(ps: seq<Permission>, perm: Permission) {
    exists i :: 0 <= i < |ps| && Matches(ps[i], perm)
  }

  /** An entry of the same action for everything, or for the kind: globally, in the
      request's organization, or by its id. */
  predicate Grants(p: Permission, q: Permission) {
    && p.action == q.action
    && (|| p.resource.kind == "instance"
        || (p.resource.kind == q.resource.kind
            && (|| (p.resource.org == None && p.resource.id == None)
                || (p.resource.id == None && p.resource.org.Some? && p.resource.org == q.resource.org)
                || (p.resource.id.Some? && p.resource.id == q.resource.id))))
  }

  /** What a set of permissions allows. */
  lemma AllowedIff(ps: seq<Permission>, q: Permission)
    ensures Allowed(ps, q) <==> exists p :: p in ps && Grants(p, q)
  {
    if Allowed(ps, q) {
      var i :| 0 <= i < |ps| && Matches(ps[i], q);
      assert ps[i] in ps && Grants(ps[i], q);
    }
    if p :| p in ps && Grants(p, q) {
      var i :| 0 <= i < |ps| && ps[i] == p;
      assert Matches(ps[i], q);
    }
  }

  /** Nothing is allowed of an action no entry has, nor, without instance entries, of a kind
      no entry names. */
  lemma NothingUnnamedAllowed(ps: seq<Permission>, q: Permission)
    requires Allowed(ps, q)
    ensures exists p :: p in ps && p.action == q.action
    ensures (exists p :: p in ps && p.resource.kind == "instance")
            || exists p :: p in ps && p.resource.kind == q.resource.kind
  {
    AllowedIff(ps, q);
    var p :| p in ps && Grants(p, q);
  }

  method PermissionAllowed(perm: Permission, ps: seq<Permission>) returns (ok: bool)
    ensures ok <==> Allowed(ps, perm)
  {
    for i := 0 to |ps|
      invariant forall j :: 0 <= j < i ==> !Matches(ps[j], perm)
    {
      if Matches(ps[i], perm) { return true; }
    }
    return false;
  }

  /** VerifyPermissions; None is an authorizer without a permission set (an inactive token). */
  method VerifyPermissions(holder: Option<seq<Permission>>, ps: seq<Permission>) returns (ok: bool)
    ensures ok <==> ps == [] || (holder.Some? && Verified(holder.value, ps))
  {
    for i := 0 to |ps|
      invariant i > 0 ==> holder.Some?
      invariant holder.Some? ==> forall j :: 0 <= j < i ==> Allowed(holder.value, ps[j])
    {
      if holder.None? { return false; }
      var allowed := PermissionAllowed(ps[i], holder.value);
      if !allowed { return false; }
    }
    return true;
  }

  ghost predicate Verified(holder: seq<Permission>, ps: seq<Permission>) {
    forall i :: 0 <= i < |ps| ==> Allowed(holder, ps[i])
  }

  predicate OrgWide(r: Resource) {
    r.kind != INSTANCE && r.org.Some? && r.id.None?
  }

  /** Matching composes except in one shape: an organization-wide permission covers a
      named resource, and that name is then asked for outside the organization. */
  lemma MatchesTransitiveIff(r: Permission, p: Permission, q: Permission)
    requires Matches(r, p) && Matches(p, q)
    ensures Matches(r, q) <==>
            !(OrgWide(r.resource) && p.resource.id.Some? && q.resource.org != r.resource.org)
  {
  }

  /** The permission names its resource and organization as `owner` has them. */
  predicate Consistent(owner: (string, Id) -> Id, p: Permission) {
    p.resource.id.Some? && p.resource.org.Some? ==>
      p.resource.org.value == owner(p.resource.kind, p.resource.id.value)
  }

  /** Only the id is named. */
  predicate IdOnly(r: Resource) {
    r.id.Some? && r.org.None?
  }

  /** A verified set allows nothing its holder is not allowed, for every request that
      names more than a bare id, as long as names and organizations belong together. */
  lemma VerifiedSetDoesNotEscalate(owner: (string, Id) -> Id, holder: seq<Permission>, ps: seq<Permission>,
                                   q: Permission)
    requires Verified(holder, ps) && Allowed(ps, q)
    requires forall i :: 0 <= i < |ps| ==> Consistent(owner, ps[i])
    requires Consistent(owner, q) && !IdOnly(q.resource)
    ensures Allowed(holder, q)
  {
    var i :| 0 <= i < |ps| && Matches(ps[i], q);
    assert Allowed(holder, ps[i]);
    var j :| 0 <= j < |holder| && Matches(holder[j], ps[i]);
    MatchesTransitiveIff(holder[j], ps[i], q);
    assert Matches(holder[j], q);
  }

  /** For a bare id the holder is allowed too, unless it was an organization-wide
      permission that covered the granting one. */
  lemma BareIdEscalatesOnlyThroughAnOrganization(holder: seq<Permission>, ps: seq<Permission>, q: Permission)
    requires Verified(holder, ps) && Allowed(ps, q) && IdOnly(q.resource) && !Allowed(holder, q)
    ensures exists i, j :: 0 <= i < |holder| && 0 <= j < |ps| && OrgWide(holder[i].resource) &&
                           ps[j].resource == Resource(q.resource.kind, q.resource.id, holder[i].resource.org)
  {
    var j :| 0 <= j < |ps| && Matches(ps[j], q);
    assert Allowed(holder, ps[j]);
    var i :| 0 <= i < |holder| && Matches(holder[i], ps[j]);
    MatchesTransitiveIff(holder[i], ps[j], q);
    assert !Matches(holder[i], q);
  }

  /** Both hypotheses are needed. */
  lemma EscalationWithoutThem()
    ensures var org1 := Permission("read", Resource("buckets", None, Some(1)));
            var named := Permission("read", Resource("buckets", Some(7), Some(1)));
            var elsewhere := Permission("read", Resource("buckets", Some(7), Some(2)));
            var bare := Permission("read", Resource("buckets", Some(7), None));
            && Verified([org1], [named])
            && Allowed([named], elsewhere) && !Allowed([org1], elsewhere)
            && Allowed([named], bare) && !Allowed([org1], bare)
  {
    var org1 := Permission("read", Resource("buckets", None, Some(1)));
    var named := Permission("read", Resource("buckets", Some(7), Some(1)));
    assert Matches([org1][0], named);
    assert Matches([named][0], Permission("read", Resource("buckets", Some(7), Some(2))));
    assert Matches([named][0], Permission("read", Resource("buckets", Some(7), None)));
  }

  /** The request `authorize` asks for, or None when it is not a known permission. */
  function Request(action: string, kind: string, rid: Option<Id>, oid: Option<Id>): (r: Option<Permission>)
    ensures r.Some? ==> Known(r.value)
  {
    var p := Permission(action, Resource(kind, rid, oid));
    if Known(p) then Some(p) else None
  }

  /** What authorizer.CreateAuthorization demands before it creates a token. */
  ghost predicate MayCreate(holder: seq<Permission>, org: Id, user: Id, ps: seq<Permission>) {
    var create := Request("write", "authorizations", None, Some(org));
    var write := Request("write", "users", Some(user), None);
    && create.Some? && Allowed(holder, create.value)
    && write.Some? && Allowed(holder, write.value)
    && Verified(holder, ps)
  }

  /** Creating a token takes write access to the authorizations of its organization and to
      its user, and every permission handed on. */
  lemma MayCreateIff(holder: seq<Permission>, org: Id, user: Id, ps: seq<Permission>)
    ensures MayCreate(holder, org, user, ps) <==>
            && org != 0 && user != 0
            && (exists p :: p in holder && Grants(p, Permission("write", Resource("authorizations", None, Some(org)))))
            && (exists p :: p in holder && Grants(p, Permission("write", Resource("users", Some(user), None))))
            && (forall i :: 0 <= i < |ps| ==> exists p :: p in holder && Grants(p, ps[i]))
  {
    AllowedIff(holder, Permission("write", Resource("authorizations", None, Some(org))));
    AllowedIff(holder, Permission("write", Resource("users", Some(user), None)));
    forall i | 0 <= i < |ps|
      ensures Allowed(holder, ps[i]) <==> exists p :: p in holder && Grants(p, ps[i])
    {
      AllowedIff(holder, ps[i]);
    }
  }

  /** Authorization.Valid: a token's permissions name no organization but its own. */
  predicate PermissionsForOrg(ps: seq<Permission>, org: Id) {
    forall i :: 0 <= i < |ps| && ps[i].resource.org.Some? ==> ps[i].resource.org.value == org
  }

  /** A token created through the authorizer answers no request, fully named, wide or
      global, that its maker's permissions would refuse. */
  lemma CreatedTokenDoesNotEscalate(owner: (string, Id) -> Id, holder: seq<Permission>, org: Id, user: Id,
                                    ps: seq<Permission>, action: string, kind: string, rid: Option<Id>, oid: Option<Id>)
    requires MayCreate(holder, org, user, ps) && PermissionsForOrg(ps, org)
    requires forall i :: 0 <= i < |ps| && ps[i].resource.id.Some? && ps[i].resource.org.Some? ==>
               owner(ps[i].resource.kind, ps[i].resource.id.value) == org
    requires rid.Some? ==> oid.Some? && oid.value == owner(kind, rid.value)
    requires Request(action, kind, rid, oid).Some? && Allowed(ps, Request(action, kind, rid, oid).value)
    ensures Allowed(holder, Request(action, kind, rid, oid).value)
  {
    VerifiedSetDoesNotEscalate(owner, holder, ps, Request(action, kind, rid, oid).value);
  }
}
