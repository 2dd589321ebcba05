/** Relation writes as the service does them: checked, inserted or deleted, and recorded in the
    audit table. The relation table stays acyclic over every run of them. */
module RelationService {
  import opened Outcomes
  import opened Models
  import opened Tables
  import opened Graph
  import AssetRepository
  import Audit
  import Ids
  import RelationRepository
  import RelationRuns

  predicate Known(assets: seq<AssetRow>, id: string) {
    exists r :: r in assets && r.id == id
  }

  /** Why a create is refused, if it is: the checks in the service's order. */
  ghost function Refusal(
    assets: seq<AssetRow>, rows: seq<Relation>, source: string, target: string): Option<ApiError>
  {
    if !Known(assets, source) || !Known(assets, target) then Some(NotFound)
    else if source == target || Reaches(rows, target, source) then Some(Validation)
    else None
  }

  /** A new relation between known assets, unless it would join an asset to itself or close a
      cycle. */
  method Create(
    assets: AssetRepository.Repository, relations: RelationRepository.Repository,
    audit: Audit.Repository, clock: Clock, source: string, target: string, kind: RelationType,
    metadata: map<string, Json>, user: string)
    returns (result: Result<Relation>)
    requires clock.Valid()
    modifies relations, audit, clock
    ensures clock.Valid()
    ensures
      match Refusal(assets.rows, old(relations.rows), source, target)
      case Some(e) =>
        result == Err(e) && relations.rows == old(relations.rows) && audit.rows == old(audit.rows)
      case None =>
        && result.Ok? && result.value == Relation(result.value.id, source, target, kind, metadata)
        && (forall r :: r in old(relations.rows) ==> r.id != result.value.id)
        && relations.rows == old(relations.rows) + [result.value]
        && |audit.rows| == |old(audit.rows)| + 1
        && audit.rows[..|old(audit.rows)|] == old(audit.rows)
        && Records(audit.rows[|old(audit.rows)|], result.value, Audit.Create, user)
    ensures
      var known := (exists r :: r in assets.rows && r.id == source)
        && (exists r :: r in assets.rows && r.id == target);
      && (result == Err(NotFound) <==> !known)
      && (result == Err(Validation) <==>
        known && (source == target || Reaches(old(relations.rows), target, source)))
    ensures RelationRuns.Changes(old(relations.rows), relations.rows)
  {
    var exists_ := assets.Exists(source);
    if !exists_ {
      return Err(NotFound);
    }
    exists_ := assets.Exists(target);
    if !exists_ {
      return Err(NotFound);
    }
    if source == target {
      return Err(Validation);
    }
    var cycle := relations.WouldCreateCycle(source, target);
    if cycle {
      return Err(Validation);
    }
    var relation := InsertRecorded(relations, audit, clock, source, target, kind, metadata, user);
    result := Ok(relation);
  }

  method InsertRecorded(
    relations: RelationRepository.Repository, audit: Audit.Repository, clock: Clock,
    source: string, target: string, kind: RelationType, metadata: map<string, Json>, user: string)
    returns (r: Relation)
    requires clock.Valid()
    modifies relations, audit, clock
    ensures clock.Valid()
    ensures r == Relation(r.id, source, target, kind, metadata)
    ensures forall x :: x in old(relations.rows) ==> x.id != r.id
    ensures relations.rows == old(relations.rows) + [r]
    ensures |audit.rows| == |old(audit.rows)| + 1
    ensures audit.rows[..|old(audit.rows)|] == old(audit.rows)
    ensures Records(audit.rows[|old(audit.rows)|], r, Audit.Create, user)
  {
    var id := Ids.NewId(set x | x in relations.rows :: x.id);
    r := Relation(id, source, target, kind, metadata);
    relations.Create(r);
    var now := clock.Now();
    var entry := audit.Create(
      "relation", id, Audit.Create, Audit.RelationChange(source, target, kind), user, now);
  }

  /** The audit entry of a relation write. */
  predicate Records(entry: Audit.AuditRow, r: Relation, action: Audit.AuditAction, user: string) {
    && entry.entityType == "relation" && entry.entityId == r.id && entry.action == action
    && entry.changes == Audit.RelationChange(r.source, r.target, r.kind) && entry.user == user
  }

  /** The entry of a deletion tells which relation it was. */
  ghost predicate RecordsRemoval(
    entry: Audit.AuditRow, rows: seq<Relation>, id: string, user: string)
  {
    exists r :: r in rows && r.id == id && Records(entry, r, Audit.RemoveRelation, user)
  }

  method Delete(
    relations: RelationRepository.Repository, audit: Audit.Repository, clock: Clock, id: string,
    user: string)
    returns (result: Result<()>)
    requires clock.Valid()
    modifies relations, audit, clock
    ensures clock.Valid()
    ensures (forall r :: r in old(relations.rows) ==> r.id != id) ==>
      result == Err(NotFound) && relations.rows == old(relations.rows) && audit.rows == old(audit.rows)
    ensures (exists r :: r in old(relations.rows) && r.id == id) ==>
      && result.Ok? && relations.rows == Filter(Except(id), old(relations.rows))
      && |audit.rows| == |old(audit.rows)| + 1
      && audit.rows[..|old(audit.rows)|] == old(audit.rows)
      && RecordsRemoval(audit.rows[|old(audit.rows)|], old(relations.rows), id, user)
    ensures RelationRuns.Changes(old(relations.rows), relations.rows)
  {
    var relation := relations.GetById(id);
    if relation.None? {
      return Err(NotFound);
    }
    FilterMembers(Except(id), relations.rows);
    var found := relations.Delete(id);
    assert found;
    var now := clock.Now();
    var r := relation.value;
    var entry := audit.Create(
      "relation", id, Audit.RemoveRelation, Audit.RelationChange(r.source, r.target, r.kind), user, now);
    assert Records(entry, r, Audit.RemoveRelation, user);
    result := Ok(());
  }

  /** The graph around a live asset; around any other there is none. */
  method TraverseGraph(
    assets: AssetRepository.Repository, relations: RelationRepository.Repository, id: string,
    maxDepth: RelationRepository.U32)
    returns (result: Result<seq<RelationRepository.GraphNode>>)
    ensures AssetRepository.FindLive(assets.rows, id).None? ==> result == Err(NotFound)
    ensures AssetRepository.FindLive(assets.rows, id).Some? ==> result.Ok?
    ensures result.Ok? ==> forall x ::
      WithinSteps(relations.rows, id, x, maxDepth) <==> exists n :: n in result.value && n.asset == x
    ensures result.Ok? ==> forall i, j :: 0 <= i < j < |result.value| ==>
      result.value[i].asset != result.value[j].asset && result.value[i].depth <= result.value[j].depth
    ensures result.Ok? ==> forall n :: n in result.value ==>
      Distance(relations.rows, id, n.asset, n.depth) && n.relations == Touching(relations.rows, n.asset)
  {
    var found := assets.GetById(id);
    if found.None? {
      return Err(NotFound);
    }
    var nodes := relations.TraverseGraph(id, maxDepth);
    result := Ok(nodes);
  }

  /** The check refuses no more than it must: in an acyclic table, a relation between known
      assets is refused exactly if it would make a cycle. */
  lemma RefusedExactlyWhenCyclic(
    assets: seq<AssetRow>, rows: seq<Relation>, r: Relation)
    requires Acyclic(rows) && Known(assets, r.source) && Known(assets, r.target)
    ensures Refusal(assets, rows, r.source, r.target).None? <==> Acyclic(rows + [r])
  {
    InsertAcyclic(rows, r);
    if r.source == r.target {
      ReachesSelf(rows, r.source);
    }
  }
}
