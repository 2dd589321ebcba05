/** The Cedar policy set: an action is allowed if some permit applies and no forbid does.
    One predicate per policy, in the order of the file. */
module Policy {
  import opened Outcomes

  datatype Action =
    | View | Create | Edit | Delete | Tag | Relate | ManageMembers | ManageWorkspaceAgents

  /** The User entity; its id is the token's sub. No groups means no `groups` attribute. */
  datatype Principal = Principal(
    sub: string, role: Option<string>, groups: set<string>, spn: Option<string>)

  /** The Asset entity's attributes. */
  datatype Resource = Resource(
    createdBy: Option<string>,
    visibility: Option<string>,
    confidentiality: Option<string>,
    ownerGroups: Option<set<string>>,
    status: Option<string>,
    assetType: Option<string>)

  /** The request context of a membership write. */
  datatype Seats = Seats(
    callerRole: Option<string>, targetSeatRole: Option<string>, requestedRole: Option<string>)

  const NO_SEATS := Seats(None, None, None)

  predicate Admin(p: Principal) {
    p.role == Some("admin")
  }

  predicate Created(p: Principal, r: Resource) {
    r.createdBy == Some(p.sub)
  }

  predicate TeamMatch(p: Principal, r: Resource) {
    && r.visibility == Some("team")
    && r.ownerGroups.Some?
    && (
      || r.ownerGroups.value * p.groups != {}
      || p.sub in r.ownerGroups.value
      || (p.spn.Some? && p.spn.value in r.ownerGroups.value))
  }

  predicate PermitAdmin(p: Principal, a: Action) {
    a in {View, Create, Edit, Delete, Tag, Relate} && Admin(p)
  }

  predicate ForbidInstanceType(p: Principal, a: Action, r: Resource) {
    a in {Create, Edit, Delete, Tag} && r.assetType == Some("instance-type") && !Admin(p)
  }

  predicate PermitViewUnbanded(a: Action, r: Resource) {
    a == View && r.visibility.None?
  }

  predicate PermitViewPublic(a: Action, r: Resource) {
    a == View && r.visibility == Some("public")
  }

  predicate PermitViewOrg(a: Action, r: Resource) {
    a == View && r.visibility == Some("org")
  }

  predicate PermitDeleteAdmin(p: Principal, a: Action) {
    a == Delete && Admin(p)
  }

  predicate PermitDeleteOwn(p: Principal, a: Action, r: Resource) {
    a == Delete && Created(p, r)
  }

  predicate PermitEditOwn(p: Principal, a: Action, r: Resource) {
    a == Edit && Created(p, r)
  }

  predicate PermitViewTeam(p: Principal, a: Action, r: Resource) {
    a == View && TeamMatch(p, r)
  }

  predicate PermitEditTeam(p: Principal, a: Action, r: Resource) {
    a == Edit && TeamMatch(p, r)
  }

  predicate PermitViewOwn(p: Principal, a: Action, r: Resource) {
    a == View && Created(p, r)
  }

  predicate PermitEveryone(a: Action) {
    a == Create || a == Tag || a == Relate
  }

  predicate PermitManageAdmin(p: Principal, a: Action) {
    (a == ManageMembers || a == ManageWorkspaceAgents) && Admin(p)
  }

  predicate PermitManageMembersOwner(a: Action, c: Seats) {
    a == ManageMembers && c.callerRole == Some("owner")
  }

  predicate PermitManageAgentsOwner(a: Action, c: Seats) {
    a == ManageWorkspaceAgents && c.callerRole == Some("owner")
  }

  /** A workspace admin handles plain members only, never the role ladder. */
  predicate PermitManagePlainMembers(a: Action, c: Seats) {
    && a == ManageMembers
    && c.callerRole == Some("ws_admin")
    && (c.targetSeatRole == Some("none") || c.targetSeatRole == Some("member"))
    && (c.requestedRole.None? || c.requestedRole == Some("member"))
  }

  predicate PermitManageAgentsWsAdmin(a: Action, c: Seats) {
    a == ManageWorkspaceAgents && c.callerRole == Some("ws_admin")
  }

  predicate Permitted(p: Principal, a: Action, r: Resource, c: Seats) {
    || PermitAdmin(p, a)
    || PermitViewUnbanded(a, r)
    || PermitViewPublic(a, r)
    || PermitViewOrg(a, r)
    || PermitDeleteAdmin(p, a)
    || PermitDeleteOwn(p, a, r)
    || PermitEditOwn(p, a, r)
    || PermitViewTeam(p, a, r)
    || PermitEditTeam(p, a, r)
    || PermitViewOwn(p, a, r)
    || PermitEveryone(a)
    || PermitManageAdmin(p, a)
    || PermitManageMembersOwner(a, c)
    || PermitManageAgentsOwner(a, c)
    || PermitManagePlainMembers(a, c)
    || PermitManageAgentsWsAdmin(a, c)
  }

  predicate Allowed(p: Principal, a: Action, r: Resource, c: Seats) {
    Permitted(p, a, r, c) && !ForbidInstanceType(p, a, r)
  }

  /** Managing members and agents is for platform admins, owners of the workspace and, within
      bounds, its admins; the seats decide nothing else. */
  lemma SeatsInBrief(p: Principal, a: Action, r: Resource, c: Seats)
    ensures Allowed(p, ManageMembers, r, c) <==>
      || p.role == Some("admin")
      || c.callerRole == Some("owner")
      || (c.callerRole == Some("ws_admin")
        && (c.targetSeatRole == Some("none") || c.targetSeatRole == Some("member"))
        && (c.requestedRole == None || c.requestedRole == Some("member")))
    ensures Allowed(p, ManageWorkspaceAgents, r, c) <==>
      p.role == Some("admin") || c.callerRole == Some("owner") || c.callerRole == Some("ws_admin")
    ensures a != ManageMembers && a != ManageWorkspaceAgents ==>
      (Allowed(p, a, r, c) <==> Allowed(p, a, r, NO_SEATS))
  {
  }

  /** Groups only ever widen: with more of them, whatever was allowed still is. */
  lemma MoreGroupsAllowMore(p: Principal, q: Principal, a: Action, r: Resource, c: Seats)
    requires q == p.(groups := q.groups) && p.groups <= q.groups
    ensures Allowed(p, a, r, c) ==> Allowed(q, a, r, c)
  {
    if r.ownerGroups.Some? && r.ownerGroups.value * p.groups != {} {
      var g :| g in r.ownerGroups.value * p.groups;
      assert g in r.ownerGroups.value * q.groups;
    }
  }
}
