/** The gates in front of relation writes: has_access rows ask for ManageMembers and has_agent
    rows for ManageWorkspaceAgents, on the caller's seat; every other type asks for Relate. */
module RelationHandlers {
  import opened Outcomes
  import opened Models
  import opened Rfc3339
  import opened Tables
  import opened Graph
  import opened Policy
  import AssetRepository
  import Audit
  import BandFilter
  import RelationRepository
  import RelationRuns
  import RelationService
  import RoleLadder
  import Roles

  /** The caller as the policies see it, with the groups resolved (`principal`) and on the
      membership gate, which passes no entities (`bare`). Identifiers of the caller, or of an
      asset, may turn out not to build. */
  datatype Caller = Caller(
    sub: string, principal: Principal, bare: Principal, builds: bool,
    idBuilds: string -> bool)

  /** The caller's asset's seat; a caller without an asset has none. */
  function CallerSeat(
    assets: seq<AssetRow>, fts: AssetRepository.FullText, rows: seq<Relation>, sub: string,
    workspace: string): string
  {
    if sub == "" then Roles.NO_SEAT
    else match Roles.Principal(assets, fts, sub)
      case Some(p) => Roles.Seat(rows, p.id, workspace)
      case None => Roles.NO_SEAT
  }

  const NO_ENTITY := Resource(None, None, None, None, None, None)

  /** `resolve_seat_role_by_asset`. */
  method ResolveSeatRoleByAsset(
    relations: RelationRepository.Repository, user: string, workspace: string)
    returns (role: string)
    ensures role == Roles.Seat(relations.rows, user, workspace)
  {
    var found := relations.GetAssetRelations(user);
    role := Roles.SeatFrom(found, user, workspace);
  }

  /** The membership gate sees the caller's seat through the sub-keyed resolver and the
      target's through the asset-keyed one. */
  method CheckMembershipPermission(
    assets: AssetRepository.Repository, relations: RelationRepository.Repository, caller: Caller,
    action: Action, workspace: string, target: string, requested: Option<string>, now: Instant)
    returns (result: Result<()>)
    ensures
      var seats := Seats(
        Some(CallerSeat(assets.rows, assets.fts, relations.rows, caller.sub, workspace)),
        Some(Roles.Seat(relations.rows, target, workspace)), requested);
      result == if caller.builds && caller.idBuilds(workspace)
          && Allowed(caller.bare, action, NO_ENTITY, seats) then Ok(())
        else Err(Forbidden)
  {
    var answer := Roles.Resolve(assets, relations, caller.sub, now);
    var callerRole := Roles.NO_SEAT;
    if answer.Ok? {
      callerRole := Roles.SeatIn(answer.value.membership, workspace);
      ghost var p := Roles.Principal(assets.rows, assets.fts, caller.sub);
      if p.Some? {
        Roles.ResolversAgree(relations.rows, p.value.id, workspace);
      }
    }
    var targetRole := ResolveSeatRoleByAsset(relations, target, workspace);
    var seats := Seats(Some(callerRole), Some(targetRole), requested);
    if !caller.builds || !caller.idBuilds(workspace) || !Allowed(caller.bare, action, NO_ENTITY, seats) {
      return Err(Forbidden);
    }
    result := Ok(());
  }

  /** The seats the membership gate tells the policies of. */
  function GateSeats(
    assets: seq<AssetRow>, fts: AssetRepository.FullText, rows: seq<Relation>, caller: Caller,
    workspace: string, target: string, requested: Option<string>): Seats
  {
    Seats(
      Some(CallerSeat(assets, fts, rows, caller.sub, workspace)),
      Some(Roles.Seat(rows, target, workspace)), requested)
  }

  function MembershipGate(
    assets: seq<AssetRow>, fts: AssetRepository.FullText, rows: seq<Relation>, caller: Caller,
    action: Action, workspace: string, target: string, requested: Option<string>): Result<()>
  {
    var seats := GateSeats(assets, fts, rows, caller, workspace, target, requested);
    if caller.builds && caller.idBuilds(workspace)
      && Allowed(caller.bare, action, NO_ENTITY, seats) then Ok(())
    else Err(Forbidden)
  }

  /** `check_asset_permission_by_id`. */
  function AssetGate(assets: seq<AssetRow>, caller: Caller, action: Action, id: string): Result<()> {
    match AssetRepository.FindLive(assets, id)
    case None => Err(NotFound)
    case Some(a) =>
      if BandFilter.Kept(caller.idBuilds, BandFilter.Request(caller.principal, action, caller.builds))(a)
      then Ok(())
      else Err(Forbidden)
  }

  method CheckAssetPermissionById(
    assets: AssetRepository.Repository, caller: Caller, action: Action, id: string)
    returns (result: Result<()>)
    ensures result == AssetGate(assets.rows, caller, action, id)
    ensures result == Err(NotFound) <==> NoneLive(assets.rows, id)
    ensures UniqueIds(assets.rows) ==> (result.Ok? <==> LiveServes(assets.rows, caller, action, id))
    ensures result.Err? ==> result.error == NotFound || result.error == Forbidden
  {
    AssetGateInBrief(assets.rows, caller, action, id);
    var found := assets.GetById(id);
    if found.None? {
      return Err(NotFound);
    }
    if !BandFilter.Enforced(found.value) {
      return Ok(());
    }
    var q := BandFilter.Request(caller.principal, action, caller.builds);
    if !BandFilter.Verdict(caller.idBuilds, q, found.value) {
      return Err(Forbidden);
    }
    result := Ok(());
  }

  // ---------- Who may ----------

  ghost predicate NoneLive(assets: seq<AssetRow>, id: string) {
    forall r :: r in assets && r.id == id ==> !r.Live()
  }

  /** A live asset has this id, and the request may be served with it. */
  ghost predicate LiveServes(assets: seq<AssetRow>, caller: Caller, action: Action, id: string) {
    exists r :: r in assets && r.id == id && r.Live() &&
      BandFilter.Serves(
        caller.idBuilds, BandFilter.Request(caller.principal, action, caller.builds), r)
  }

  /** Platform admins, owners and workspace admins manage a workspace's agents. */
  ghost predicate ManagesAgents(
    assets: seq<AssetRow>, fts: AssetRepository.FullText, rows: seq<Relation>, caller: Caller,
    workspace: string)
  {
    var seat := CallerSeat(assets, fts, rows, caller.sub, workspace);
    && caller.builds && caller.idBuilds(workspace)
    && (caller.bare.role == Some("admin") || seat == "owner" || seat == "ws_admin")
  }

  /** Platform admins and owners manage all members of a workspace, its workspace admins only
      those who are no more than plain members, asking for no more. */
  ghost predicate ManagesMember(
    assets: seq<AssetRow>, fts: AssetRepository.FullText, rows: seq<Relation>, caller: Caller,
    workspace: string, user: string, requested: Option<string>)
  {
    var seat := CallerSeat(assets, fts, rows, caller.sub, workspace);
    var held := Roles.Seat(rows, user, workspace);
    && caller.builds && caller.idBuilds(workspace)
    && (
      || caller.bare.role == Some("admin")
      || seat == "owner"
      || (seat == "ws_admin" && (held == "none" || held == "member")
        && (requested == None || requested == Some("member"))))
  }

  /** The caller's seat read off the rows: that of the asset that stands for its sub, or none. */
  lemma CallerSeatInBrief(
    assets: seq<AssetRow>, fts: AssetRepository.FullText, rows: seq<Relation>, sub: string,
    workspace: string)
    requires UniqueIds(assets)
    ensures
      var seat := CallerSeat(assets, fts, rows, sub, workspace);
      && (sub == "" || (forall p :: !Roles.StandsFor(assets, sub, p)) ==> seat == "none")
      && forall p :: sub != "" && Roles.StandsFor(assets, sub, p) ==>
        Roles.RoleReads(rows, p.id, workspace, seat)
  {
    Roles.PrincipalInBrief(assets, fts, sub);
    var found := Roles.Principal(assets, fts, sub);
    if sub != "" && found.Some? {
      Roles.SeatInBrief(rows, found.value.id, workspace);
      forall p | Roles.StandsFor(assets, sub, p)
        ensures p == found.value
      {
        Roles.StandsForOne(assets, sub, p, found.value);
      }
    }
  }

  lemma AssetGateInBrief(assets: seq<AssetRow>, caller: Caller, action: Action, id: string)
    ensures AssetGate(assets, caller, action, id) == Err(NotFound) <==> NoneLive(assets, id)
    ensures UniqueIds(assets) ==>
      (AssetGate(assets, caller, action, id).Ok? <==> LiveServes(assets, caller, action, id))
  {
    var q := BandFilter.Request(caller.principal, action, caller.builds);
    AssetRepository.FindLiveSome(assets, id);
    var found := AssetRepository.FindLive(assets, id);
    if found.Some? {
      if found.value.context.Some? {
        BandFilter.AllowedInBrief(caller.principal, action, found.value);
      }
      assert BandFilter.Kept(caller.idBuilds, q)(found.value)
        <==> BandFilter.Serves(caller.idBuilds, q, found.value);
    }
  }

  lemma CreateGateInBrief(
    assets: seq<AssetRow>, fts: AssetRepository.FullText, rows: seq<Relation>, caller: Caller,
    source: string, target: string, kind: RelationType, metadata: map<string, Json>)
    ensures
      var gate := CreateGate(assets, fts, rows, caller, source, target, kind, metadata);
      && (kind == HasAgent ==>
        gate == if ManagesAgents(assets, fts, rows, caller, source) then Ok(()) else Err(Forbidden))
      && (kind == HasAccess ==>
        gate ==
          if ManagesMember(assets, fts, rows, caller, target, source, Roles.RoleText(metadata)) then
            Ok(())
          else Err(Forbidden))
      && (kind != HasAgent && kind != HasAccess && UniqueIds(assets) ==>
        gate == if NoneLive(assets, source) then Err(NotFound)
          else if !LiveServes(assets, caller, View, source) then Err(Forbidden)
          else if NoneLive(assets, target) then Err(NotFound)
          else if !LiveServes(assets, caller, Relate, target) then Err(Forbidden)
          else Ok(()))
  {
    match kind
    case HasAgent =>
      SeatsInBrief(caller.bare, ManageWorkspaceAgents, NO_ENTITY,
        GateSeats(assets, fts, rows, caller, source, source, None));
    case HasAccess =>
      SeatsInBrief(caller.bare, ManageMembers, NO_ENTITY,
        GateSeats(assets, fts, rows, caller, target, source, Roles.RoleText(metadata)));
    case _ =>
      AssetGateInBrief(assets, caller, View, source);
      AssetGateInBrief(assets, caller, Relate, target);
  }

  lemma DeleteGateInBrief(
    assets: seq<AssetRow>, fts: AssetRepository.FullText, rows: seq<Relation>, caller: Caller,
    r: Relation)
    ensures
      var gate := DeleteGate(assets, fts, rows, caller, r);
      && (r.kind == HasAgent ==>
        gate == if ManagesAgents(assets, fts, rows, caller, r.source) then Ok(()) else Err(Forbidden))
      && (r.kind == HasAccess ==>
        gate ==
          if ManagesMember(assets, fts, rows, caller, r.target, r.source, None) then Ok(())
          else Err(Forbidden))
      && (r.kind != HasAgent && r.kind != HasAccess && UniqueIds(assets) ==>
        gate == if NoneLive(assets, r.source) then Err(NotFound)
          else if !LiveServes(assets, caller, Relate, r.source) then Err(Forbidden)
          else Ok(()))
  {
    match r.kind
    case HasAgent =>
      SeatsInBrief(caller.bare, ManageWorkspaceAgents, NO_ENTITY,
        GateSeats(assets, fts, rows, caller, r.source, r.source, None));
    case HasAccess =>
      SeatsInBrief(caller.bare, ManageMembers, NO_ENTITY,
        GateSeats(assets, fts, rows, caller, r.target, r.source, None));
    case _ => AssetGateInBrief(assets, caller, Relate, r.source);
  }

  /** What a new relation must pass. */
  function CreateGate(
    assets: seq<AssetRow>, fts: AssetRepository.FullText, rows: seq<Relation>, caller: Caller,
    source: string, target: string, kind: RelationType, metadata: map<string, Json>): Result<()>
  {
    match kind
    case HasAccess =>
      MembershipGate(
        assets, fts, rows, caller, ManageMembers, target, source, Roles.RoleText(metadata))
    case HasAgent =>
      MembershipGate(assets, fts, rows, caller, ManageWorkspaceAgents, source, source, None)
    case _ =>
      if AssetGate(assets, caller, View, source).Err? then AssetGate(assets, caller, View, source)
      else AssetGate(assets, caller, Relate, target)
  }

  /** What the deletion of a relation must pass. */
  function DeleteGate(
    assets: seq<AssetRow>, fts: AssetRepository.FullText, rows: seq<Relation>, caller: Caller,
    r: Relation): Result<()>
  {
    match r.kind
    case HasAccess =>
      MembershipGate(assets, fts, rows, caller, ManageMembers, r.target, r.source, None)
    case HasAgent =>
      MembershipGate(assets, fts, rows, caller, ManageWorkspaceAgents, r.source, r.source, None)
    case _ => AssetGate(assets, caller, Relate, r.source)
  }

  method CheckCreate(
    assets: AssetRepository.Repository, relations: RelationRepository.Repository, caller: Caller,
    source: string, target: string, kind: RelationType, metadata: map<string, Json>, now: Instant)
    returns (result: Result<()>)
    ensures result == CreateGate(
      assets.rows, assets.fts, relations.rows, caller, source, target, kind, metadata)
    ensures UniqueIds(assets.rows) ==>
      var may := match kind
        case HasAgent => ManagesAgents(assets.rows, assets.fts, relations.rows, caller, source)
        case HasAccess => ManagesMember(
          assets.rows, assets.fts, relations.rows, caller, target, source, Roles.RoleText(metadata))
        case _ =>
          LiveServes(assets.rows, caller, View, source) && LiveServes(assets.rows, caller, Relate, target);
      result.Ok? <==> may
  {
    CreateGateInBrief(
      assets.rows, assets.fts, relations.rows, caller, source, target, kind, metadata);
    match kind
    case HasAccess =>
      result := CheckMembershipPermission(
        assets, relations, caller, ManageMembers, target, source, Roles.RoleText(metadata), now);
    case HasAgent =>
      result := CheckMembershipPermission(
        assets, relations, caller, ManageWorkspaceAgents, source, source, None, now);
    case _ =>
      result := CheckAssetPermissionById(assets, caller, View, source);
      if result.Ok? {
        result := CheckAssetPermissionById(assets, caller, Relate, target);
      }
  }

  method CheckDelete(
    assets: AssetRepository.Repository, relations: RelationRepository.Repository, caller: Caller,
    r: Relation, now: Instant)
    returns (result: Result<()>)
    ensures result == DeleteGate(assets.rows, assets.fts, relations.rows, caller, r)
    ensures UniqueIds(assets.rows) ==>
      var may := match r.kind
        case HasAgent => ManagesAgents(assets.rows, assets.fts, relations.rows, caller, r.source)
        case HasAccess =>
          ManagesMember(assets.rows, assets.fts, relations.rows, caller, r.target, r.source, None)
        case _ => LiveServes(assets.rows, caller, Relate, r.source);
      result.Ok? <==> may
  {
    DeleteGateInBrief(assets.rows, assets.fts, relations.rows, caller, r);
    match r.kind
    case HasAccess =>
      result := CheckMembershipPermission(
        assets, relations, caller, ManageMembers, r.target, r.source, None, now);
    case HasAgent =>
      result := CheckMembershipPermission(
        assets, relations, caller, ManageWorkspaceAgents, r.source, r.source, None, now);
    case _ =>
      result := CheckAssetPermissionById(assets, caller, Relate, r.source);
  }

  /** Without an authorizer there is no gate. */
  method CreateRelation(
    assets: AssetRepository.Repository, relations: RelationRepository.Repository,
    audit: Audit.Repository, clock: Clock, enforced: bool, caller: Caller, source: string,
    target: string, kind: RelationType, metadata: map<string, Json>, user: string)
    returns (result: Result<Relation>)
    requires clock.Valid()
    modifies relations, audit, clock
    ensures clock.Valid()
    ensures
      var gate := CreateGate(
        assets.rows, assets.fts, old(relations.rows), caller, source, target, kind, metadata);
      var refusal := RelationService.Refusal(assets.rows, old(relations.rows), source, target);
      if enforced && gate.Err? then result == Err(gate.error) && relations.rows == old(relations.rows)
      else if refusal.Some? then result == Err(refusal.value) && relations.rows == old(relations.rows)
      else
        && result.Ok? && result.value == Relation(result.value.id, source, target, kind, metadata)
        && relations.rows == old(relations.rows) + [result.value]
    ensures UniqueIds(assets.rows) && enforced ==>
      var plain := kind != HasAgent && kind != HasAccess;
      var may := match kind
        case HasAgent => ManagesAgents(assets.rows, assets.fts, old(relations.rows), caller, source)
        case HasAccess => ManagesMember(
          assets.rows, assets.fts, old(relations.rows), caller, target, source, Roles.RoleText(metadata))
        case _ =>
          LiveServes(assets.rows, caller, View, source) && LiveServes(assets.rows, caller, Relate, target);
      var missing := plain && (NoneLive(assets.rows, source)
        || (NoneLive(assets.rows, target) && LiveServes(assets.rows, caller, View, source)));
      && (!may ==> result == Err(if missing then NotFound else Forbidden))
      && (may ==> (result.Ok? <==>
        RelationService.Refusal(assets.rows, old(relations.rows), source, target) == None))
    ensures RelationRuns.Changes(old(relations.rows), relations.rows)
    ensures result.Ok? && enforced && MovesSeats(
        assets.rows, assets.fts, old(relations.rows), caller, result.value) ==>
      var call := Creates(assets.rows, assets.fts, caller, result.value);
      && Passes(old(relations.rows), call) && relations.rows == AfterCall(old(relations.rows), call)
      && RoleLadder.GoesThrough(old(relations.rows), LadderWrite(call))
  {
    CreateGateInBrief(
      assets.rows, assets.fts, relations.rows, caller, source, target, kind, metadata);
    if enforced {
      var gate := CheckCreate(assets, relations, caller, source, target, kind, metadata, clock.last);
      if gate.Err? {
        return Err(gate.error);
      }
    }
    ghost var rows := relations.rows;
    result := RelationService.Create(
      assets, relations, audit, clock, source, target, kind, metadata, user);
    if result.Ok? && enforced && MovesSeats(assets.rows, assets.fts, rows, caller, result.value) {
      CreateGateGuardsLadder(assets.rows, assets.fts, rows, caller, result.value);
    }
  }

  method DeleteRelation(
    assets: AssetRepository.Repository, relations: RelationRepository.Repository,
    audit: Audit.Repository, clock: Clock, enforced: bool, caller: Caller, id: string, user: string)
    returns (result: Result<()>)
    requires clock.Valid() && RoleLadder.UniqueIds(relations.rows)
    modifies relations, audit, clock
    ensures clock.Valid()
    ensures result.Err? ==> relations.rows == old(relations.rows)
    ensures (forall r :: r in old(relations.rows) ==> r.id != id) ==> result == Err(NotFound)
    ensures forall r :: r in old(relations.rows) && r.id == id ==>
      var gate := DeleteGate(assets.rows, assets.fts, old(relations.rows), caller, r);
      if enforced && gate.Err? then result == Err(gate.error)
      else
        && result.Ok?
        && relations.rows == Filter(Except(id), old(relations.rows))
    ensures forall r | r in old(relations.rows) && r.id == id && UniqueIds(assets.rows) && enforced ::
      var may := match r.kind
        case HasAgent => ManagesAgents(assets.rows, assets.fts, old(relations.rows), caller, r.source)
        case HasAccess =>
          ManagesMember(assets.rows, assets.fts, old(relations.rows), caller, r.target, r.source, None)
        case _ => LiveServes(assets.rows, caller, Relate, r.source);
      var missing := r.kind != HasAgent && r.kind != HasAccess && NoneLive(assets.rows, r.source);
      if may then result.Ok? else result == Err(if missing then NotFound else Forbidden)
    ensures forall r | r in old(relations.rows) && r.id == id && result.Ok? && enforced
        && MovesSeats(assets.rows, assets.fts, old(relations.rows), caller, r) ::
      var call := Deletes(assets.rows, assets.fts, caller, r);
      && Passes(old(relations.rows), call) && relations.rows == AfterCall(old(relations.rows), call)
      && RoleLadder.GoesThrough(old(relations.rows), LadderWrite(call))
    ensures RelationRuns.Changes(old(relations.rows), relations.rows)
  {
    if r :| r in relations.rows && r.id == id {
      OnlyRowOfId(relations.rows, r);
      DeleteGateInBrief(assets.rows, assets.fts, relations.rows, caller, r);
    }
    if enforced {
      var gate := CheckDeleteById(assets, relations, caller, id, clock.last);
      if gate.Err? {
        return Err(gate.error);
      }
    }
    ghost var rows := relations.rows;
    result := RelationService.Delete(relations, audit, clock, id, user);
    forall r | r in rows && r.id == id && result.Ok? && enforced
        && MovesSeats(assets.rows, assets.fts, rows, caller, r)
      ensures RoleLadder.GoesThrough(
        rows, LadderWrite(Deletes(assets.rows, assets.fts, caller, r)))
    {
      DeleteGateGuardsLadder(assets.rows, assets.fts, rows, caller, r);
    }
  }

  method CheckDeleteById(
    assets: AssetRepository.Repository, relations: RelationRepository.Repository, caller: Caller,
    id: string, now: Instant)
    returns (result: Result<()>)
    requires RoleLadder.UniqueIds(relations.rows)
    ensures (forall r :: r in relations.rows ==> r.id != id) ==> result == Err(NotFound)
    ensures forall r :: r in relations.rows && r.id == id ==>
      result == DeleteGate(assets.rows, assets.fts, relations.rows, caller, r)
  {
    var found := relations.GetById(id);
    if found.None? {
      return Err(NotFound);
    }
    result := CheckDelete(assets, relations, caller, found.value, now);
    OnlyRowOfId(relations.rows, found.value);
  }

  lemma OnlyRowOfId(rows: seq<Relation>, r: Relation)
    requires RoleLadder.UniqueIds(rows) && r in rows
    ensures forall s :: s in rows && s.id == r.id ==> s == r
  {
    forall s | s in rows && s.id == r.id
      ensures s == r
    {
      RoleLadder.UniqueById(rows, s, r);
    }
  }

  // ---------- The gates guard the ladder ----------

  /** A has_access write by someone who is neither platform admin nor owner. */
  predicate MovesSeats(
    assets: seq<AssetRow>, fts: AssetRepository.FullText, rows: seq<Relation>, caller: Caller,
    r: Relation)
  {
    && r.kind == HasAccess && !Admin(caller.bare)
    && CallerSeat(assets, fts, rows, caller.sub, r.target) != Roles.OWNER
  }

  function CallerAsset(assets: seq<AssetRow>, fts: AssetRepository.FullText, caller: Caller): string {
    match Roles.Principal(assets, fts, caller.sub)
    case Some(p) => p.id
    case None => ""
  }

  /** A call of either handler on a row, with the asset table as it is then. */
  datatype Call =
    | Creates(assets: seq<AssetRow>, fts: AssetRepository.FullText, caller: Caller, row: Relation)
    | Deletes(assets: seq<AssetRow>, fts: AssetRepository.FullText, caller: Caller, row: Relation)

  /** The call gets past the gate with a has_access row, though the caller is neither platform
      admin nor owner. */
  ghost predicate Passes(rows: seq<Relation>, call: Call) {
    && MovesSeats(call.assets, call.fts, rows, call.caller, call.row)
    && match call
      case Creates(assets, fts, caller, r) =>
        && CreateGate(assets, fts, rows, caller, r.source, r.target, r.kind, r.metadata).Ok?
        && forall x :: x in rows ==> x.id != r.id
      case Deletes(assets, fts, caller, r) => DeleteGate(assets, fts, rows, caller, r).Ok? && r in rows
  }

  function AfterCall(rows: seq<Relation>, call: Call): seq<Relation> {
    if call.Creates? then rows + [call.row] else Filter(Except(call.row.id), rows)
  }

  function LadderWrite(call: Call): RoleLadder.Write {
    var caller := CallerAsset(call.assets, call.fts, call.caller);
    if call.Creates? then RoleLadder.Grant(call.caller.bare, NO_ENTITY, caller, call.row)
    else RoleLadder.Revoke(call.caller.bare, NO_ENTITY, caller, call.row)
  }

  /** What passes the gate is a write of the ladder's runs. */
  lemma CreateGateGuardsLadder(
    assets: seq<AssetRow>, fts: AssetRepository.FullText, rows: seq<Relation>, caller: Caller,
    r: Relation)
    requires MovesSeats(assets, fts, rows, caller, r) && forall x :: x in rows ==> x.id != r.id
    requires CreateGate(assets, fts, rows, caller, r.source, r.target, r.kind, r.metadata).Ok?
    ensures RoleLadder.GoesThrough(rows, LadderWrite(Creates(assets, fts, caller, r)))
  {
  }

  lemma DeleteGateGuardsLadder(
    assets: seq<AssetRow>, fts: AssetRepository.FullText, rows: seq<Relation>, caller: Caller,
    r: Relation)
    requires MovesSeats(assets, fts, rows, caller, r) && r in rows
    requires DeleteGate(assets, fts, rows, caller, r).Ok?
    ensures RoleLadder.GoesThrough(rows, LadderWrite(Deletes(assets, fts, caller, r)))
    ensures RoleLadder.AfterWrite(rows, LadderWrite(Deletes(assets, fts, caller, r)))
      == Filter(Except(r.id), rows)
  {
  }

  // ---------- Runs of the two handlers ----------

  ghost predicate AllPass(rows: seq<Relation>, calls: seq<Call>)
    decreases |calls|
  {
    calls != [] ==> Passes(rows, calls[0]) && AllPass(AfterCall(rows, calls[0]), calls[1..])
  }

  function AfterCalls(rows: seq<Relation>, calls: seq<Call>): seq<Relation>
    decreases |calls|
  {
    if calls == [] then rows else AfterCalls(AfterCall(rows, calls[0]), calls[1..])
  }

  /** A run of such calls is one of the ladder's runs. */
  lemma {:induction false} CallsClimbTheLadder(rows: seq<Relation>, calls: seq<Call>)
    requires AllPass(rows, calls)
    ensures RoleLadder.AllGoThrough(rows, Map(LadderWrite, calls))
    ensures RoleLadder.AfterAll(rows, Map(LadderWrite, calls)) == AfterCalls(rows, calls)
    decreases |calls|
  {
    if calls != [] {
      var call := calls[0];
      if call.Creates? {
        CreateGateGuardsLadder(call.assets, call.fts, rows, call.caller, call.row);
      } else {
        DeleteGateGuardsLadder(call.assets, call.fts, rows, call.caller, call.row);
      }
      CallsClimbTheLadder(AfterCall(rows, call), calls[1..]);
      assert Map(LadderWrite, calls)[1..] == Map(LadderWrite, calls[1..]);
    }
  }

  /** So through the handlers, too, nobody but an admin or an owner moves an elevated seat of a
      settled table, in whatever order and whoever calls. */
  lemma HandlersKeepSeats(rows: seq<Relation>, calls: seq<Call>)
    requires RoleLadder.UniqueIds(rows) && RoleLadder.Settled(rows) && AllPass(rows, calls)
    ensures RoleLadder.SameElevatedSeats(rows, AfterCalls(rows, calls))
  {
    CallsClimbTheLadder(rows, calls);
    RoleLadder.RunKeepsSeats(rows, Map(LadderWrite, calls));
  }
}
