/** Changing the authorization context of an asset and, on request, of everything its relations
    lead to. */
module AuthCascade {
  import opened Outcomes
  import opened Models
  import opened Rfc3339
  import opened Tables
  import opened Graph
  import opened AssetRepository
  import Audit
  import Collections
  import RelationRepository

  datatype Request = Request(
    visibility: Option<string>, ownerGroups: Option<seq<string>>, confidentiality: Option<string>,
    cascade: bool)

  /** The requested fields replace the asset's own; the others stay. */
  function Merge(context: Option<AuthContext>, q: Request): AuthContext {
    var c := context.GetOr(DEFAULT_CONTEXT);
    AuthContext(
      q.visibility.GetOr(c.visibility), q.ownerGroups.GetOr(c.ownerGroups),
      q.confidentiality.GetOr(c.confidentiality))
  }

  /** Field by field: what the request asks for, else what the asset had, else the empty
      default. */
  ghost predicate AsRequested(had: Option<AuthContext>, context: AuthContext, q: Request) {
    && context.visibility == (
      if q.visibility.Some? then q.visibility.value
      else if had.Some? then had.value.visibility else "")
    && context.ownerGroups == (
      if q.ownerGroups.Some? then q.ownerGroups.value
      else if had.Some? then had.value.ownerGroups else [])
    && context.confidentiality == (
      if q.confidentiality.Some? then q.confidentiality.value
      else if had.Some? then had.value.confidentiality else "")
  }

  /** Every live target has the context asked for; every other asset has what it had. */
  ghost predicate ContextsSet(
    rows: seq<AssetRow>, rows': seq<AssetRow>, targets: set<string>, q: Request)
  {
    && |rows'| == |rows|
    && forall k :: 0 <= k < |rows| ==>
      if rows[k].id in targets && rows[k].deletedAt.None? then
        rows'[k].context.Some? && AsRequested(rows[k].context, rows'[k].context.value, q)
      else rows'[k].context == rows[k].context
  }

  /** A live target gets the merged context and a new stamp; nothing else about it changes. */
  ghost predicate RowAfter(r: AssetRow, r': AssetRow, target: bool, q: Request) {
    if target && r.Live() then
      && r' == r.(context := Some(Merge(r.context, q)), updatedAt := r'.updatedAt)
      && IsStamp(r'.updatedAt)
    else r' == r
  }

  ghost predicate Merged(rows: seq<AssetRow>, rows': seq<AssetRow>, targets: set<string>, q: Request) {
    && |rows'| == |rows|
    && forall k :: 0 <= k < |rows| ==> RowAfter(rows[k], rows'[k], rows[k].id in targets, q)
  }

  lemma MergedInBrief(rows: seq<AssetRow>, rows': seq<AssetRow>, targets: set<string>, q: Request)
    requires Merged(rows, rows', targets, q)
    ensures ContextsSet(rows, rows', targets, q)
  {
    forall k | 0 <= k < |rows|
      ensures
        if rows[k].id in targets && rows[k].deletedAt.None? then
          rows'[k].context.Some? && AsRequested(rows[k].context, rows'[k].context.value, q)
        else rows'[k].context == rows[k].context
    {
      assert RowAfter(rows[k], rows'[k], rows[k].id in targets, q);
    }
  }

  /** The root and, if asked for, the assets reachable from it. */
  ghost predicate Targets(rows: seq<Relation>, root: string, q: Request, targets: set<string>) {
    forall id :: id in targets <==> id == root || (q.cascade && Reaches(rows, root, id))
  }

  lemma {:induction false} FindLiveIn(rows: seq<AssetRow>, id: string)
    requires UniqueIds(rows)
    ensures
      match FindLive(rows, id)
      case Some(r) => r in rows && r.id == id && r.Live()
      case None => forall r :: r in rows && r.id == id ==> !r.Live()
  {
    if rows != [] {
      assert rows == [rows[0]] + rows[1..];
      assert forall i :: 1 <= i < |rows| ==> rows[1..][i - 1] == rows[i];
      FindLiveIn(rows[1..], id);
    }
  }

  lemma MergedKeepsIds(rows: seq<AssetRow>, rows': seq<AssetRow>, targets: set<string>, q: Request)
    requires UniqueIds(rows) && Merged(rows, rows', targets, q)
    ensures UniqueIds(rows')
  {
    forall i, j | 0 <= i < j < |rows'|
      ensures rows'[i].id != rows'[j].id
    {
      assert rows'[i].id == rows[i].id && rows'[j].id == rows[j].id;
    }
  }

  lemma MergedStillLive(rows: seq<AssetRow>, rows': seq<AssetRow>, targets: set<string>, q: Request)
    requires Merged(rows, rows', targets, q)
    ensures StillLive(rows, rows')
  {
    forall k | 0 <= k < |rows|
      ensures rows'[k].id == rows[k].id && (rows[k].Live() ==> rows'[k].Live())
    {
      assert RowAfter(rows[k], rows'[k], rows[k].id in targets, q);
    }
    RowsStillLive(rows, rows');
  }

  /** Updating one more asset. `context` is the merge of what it had, if it is live. */
  lemma MergedOneMore(
    rows: seq<AssetRow>, rows': seq<AssetRow>, rows'': seq<AssetRow>, targets: set<string>,
    q: Request, id: string, now: Instant)
    requires UniqueIds(rows) && Merged(rows, rows', targets, q) && id !in targets && now.Valid()
    requires
      match FindLive(rows', id)
      case Some(r) => rows'' == UpdateRow(rows', id, WithContext(Merge(r.context, q), now))
      case None => rows'' == rows'
    ensures Merged(rows, rows'', targets + {id}, q)
  {
    MergedKeepsIds(rows, rows', targets, q);
    FindLiveIn(rows', id);
    forall k | 0 <= k < |rows|
      ensures RowAfter(rows[k], rows''[k], rows[k].id in targets + {id}, q)
    {
      assert rows'[k] in rows' && rows'[k].id == rows[k].id;
    }
  }

  /** Merges the request into the live ones of these assets. */
  method Cascade(
    assets: Repository, clock: Clock, ids: seq<string>, q: Request,
    ghost rows: seq<AssetRow>, ghost before: set<string>)
    requires clock.Valid() && UniqueIds(rows) && NoDuplicates(ids)
    requires Merged(rows, assets.rows, before, q) && forall id :: id in ids ==> id !in before
    modifies assets`rows, clock
    ensures clock.Valid() && Merged(rows, assets.rows, before + (set id | id in ids), q)
    ensures ContextsSet(rows, assets.rows, before + (set id | id in ids), q)
  {
    ghost var targets := before;
    for i := 0 to |ids|
      invariant clock.Valid() && Merged(rows, assets.rows, targets, q)
      invariant targets == before + set id | id in ids[..i]
    {
      assert ids[i] in ids && ids[i] !in ids[..i];
      assert ids[..i + 1] == ids[..i] + [ids[i]];
      ghost var rows' := assets.rows;
      var child := assets.GetById(ids[i]);
      if child.Some? {
        var now := clock.Now();
        var updated := assets.UpdateAuthContext(ids[i], Merge(child.value.context, q), now);
      }
      MergedOneMore(rows, rows', assets.rows, targets, q, ids[i], clock.last);
      targets := targets + {ids[i]};
    }
    assert ids[..|ids|] == ids;
    MergedInBrief(rows, assets.rows, targets, q);
  }

  /** The cascade from an asset that has been updated itself. */
  method Spread(
    assets: Repository, relations: RelationRepository.Repository, clock: Clock, id: string,
    q: Request, ghost rows: seq<AssetRow>)
    returns (cascaded: nat, ghost targets: set<string>)
    requires clock.Valid() && UniqueIds(rows) && Merged(rows, assets.rows, {id}, q)
    modifies assets`rows, clock
    ensures clock.Valid() && Merged(rows, assets.rows, targets, q)
    ensures Targets(relations.rows, id, q, targets) && cascaded + 1 == |targets|
  {
    cascaded, targets := 0, {id};
    ReachesSelf(relations.rows, id);
    if q.cascade {
      var descendants := relations.GetDescendants(id);
      cascaded := |descendants|;
      Cascade(assets, clock, descendants, q, rows, {id});
      SizeOfDistinct(descendants);
      targets := {id} + set x | x in descendants;
    }
  }

  /** The entry counts the assets the cascade went to, the root not among them. */
  ghost predicate Records(
    entry: Audit.AuditRow, id: string, context: AuthContext, cascade: bool, targets: set<string>)
  {
    && entry.entityId == id && entry.action == Audit.Update && entry.changes.ContextChange?
    && entry.changes.context == context && entry.changes.cascade == cascade
    && entry.changes.cascaded + 1 == |targets|
  }

  method UpdateAuthContext(
    assets: Repository, relations: RelationRepository.Repository, audit: Audit.Repository,
    clock: Clock, id: string, q: Request, user: string)
    returns (result: Result<()>, ghost targets: set<string>)
    requires clock.Valid() && UniqueIds(assets.rows)
    modifies assets`rows, audit, clock
    ensures clock.Valid()
    ensures FindLive(old(assets.rows), id).None? ==>
      result == Err(NotFound) && assets.rows == old(assets.rows) && audit.rows == old(audit.rows)
    ensures FindLive(old(assets.rows), id).Some? ==>
      && result.Ok? && Targets(relations.rows, id, q, targets)
      && Merged(old(assets.rows), assets.rows, targets, q)
      && Collections.Appended(old(audit.rows), audit.rows)
      && Records(Collections.Last(audit.rows), id,
        Merge(FindLive(old(assets.rows), id).value.context, q), q.cascade, targets)
    ensures result.Ok? ==>
      && ContextsSet(old(assets.rows), assets.rows, targets, q)
      && forall r :: r in old(assets.rows) && r.id == id && r.deletedAt.None? ==>
        AsRequested(r.context, Collections.Last(audit.rows).changes.context, q)
    ensures StillLive(old(assets.rows), assets.rows)
  {
    targets := {};
    var asset := assets.GetById(id);
    if asset.None? {
      return Err(NotFound), targets;
    }
    ghost var rows := assets.rows;
    var context := Merge(asset.value.context, q);
    var now := clock.Now();
    var updated := assets.UpdateAuthContext(id, context, now);
    MergedOneMore(rows, rows, assets.rows, {}, q, id, now);
    assert {} + {id} == {id};
    var cascaded;
    cascaded, targets := Spread(assets, relations, clock, id, q, rows);
    MergedStillLive(rows, assets.rows, targets, q);
    MergedInBrief(rows, assets.rows, targets, q);
    FindLiveIn(rows, id);
    now := clock.Now();
    var entry := audit.Create(
      "asset", id, Audit.Update, Audit.ContextChange(context, q.cascade, cascaded), user, now);
    result := Ok(());
  }

  /** Making the same request again changes no context, and nothing but stamps. */
  lemma SecondRequestChangesNothing(
    rows: seq<AssetRow>, rows': seq<AssetRow>, rows'': seq<AssetRow>, targets: set<string>,
    q: Request, k: nat)
    requires Merged(rows, rows', targets, q) && Merged(rows', rows'', targets, q) && k < |rows|
    ensures rows''[k] == rows'[k].(updatedAt := rows''[k].updatedAt)
  {
    assert RowAfter(rows[k], rows'[k], rows[k].id in targets, q);
    assert RowAfter(rows'[k], rows''[k], rows'[k].id in targets, q);
  }

  /** Two requests in one: where both ask for a field, the later one's. */
  function Combined(q: Request, later: Request): Request {
    Request(
      if later.visibility.Some? then later.visibility else q.visibility,
      if later.ownerGroups.Some? then later.ownerGroups else q.ownerGroups,
      if later.confidentiality.Some? then later.confidentiality else q.confidentiality,
      later.cascade)
  }

  /** One request after another on the same assets leaves them with the contexts of the two
      combined; the first is not undone in what the second does not ask for. */
  lemma RequestsCombine(
    rows: seq<AssetRow>, rows': seq<AssetRow>, rows'': seq<AssetRow>, targets: set<string>,
    q: Request, later: Request)
    requires Merged(rows, rows', targets, q) && Merged(rows', rows'', targets, later)
    ensures Merged(rows, rows'', targets, Combined(q, later))
  {
    forall k | 0 <= k < |rows|
      ensures RowAfter(rows[k], rows''[k], rows[k].id in targets, Combined(q, later))
    {
      assert RowAfter(rows[k], rows'[k], rows[k].id in targets, q);
      assert RowAfter(rows'[k], rows''[k], rows'[k].id in targets, later);
    }
  }
}
