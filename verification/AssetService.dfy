/** Deleting an asset: the soft delete, the cascade over relations and collections, and the one
    audit entry that remembers the cascade. */
module AssetService {
  import opened Outcomes
  import opened Models
  import opened Rfc3339
  import opened Tables
  import opened Graph
  import opened AssetRepository
  import Audit
  import Collections
  import RelationRepository
  import RelationRuns
  import RelationService
  import Text

  /** The repository calls of a delete, in order; a call may fail. */
  datatype Call = Lookup | Snapshot | SoftDelete | DropRelations | DropMemberships | WriteEntry

  function Rank(c: Call): nat {
    match c
    case Lookup => 0
    case Snapshot => 1
    case SoftDelete => 2
    case DropRelations => 3
    case DropMemberships => 4
    case WriteEntry => 5
  }

  /** The call was made, and did not fail. */
  predicate Done(c: Call, failing: Option<Call>) {
    failing.None? || Rank(c) < Rank(failing.value)
  }

  function Summarize(r: Relation): Audit.Summary {
    Audit.Summary(r.id, r.source, r.target, r.kind)
  }

  /** The calls that delete, in order, up to the failing one. */
  method Remove(
    assets: AssetRepository.Repository, relations: RelationRepository.Repository,
    collections: Collections.Repository, failing: Option<Call>, id: string, now: Instant)
    returns (ok: bool)
    requires failing != Some(Lookup) && failing != Some(Snapshot)
    modifies assets`rows, relations, collections
    ensures ok <==> failing.None? || failing == Some(WriteEntry)
    ensures assets.rows == if Done(SoftDelete, failing)
      then UpdateRow(old(assets.rows), id, Deleted(now)) else old(assets.rows)
    ensures relations.rows == if Done(DropRelations, failing)
      then Filter(Apart(id), old(relations.rows)) else old(relations.rows)
    ensures collections.members == if Done(DropMemberships, failing)
      then old(collections.members) - Collections.HeldBy(old(collections.members), id)
      else old(collections.members)
  {
    if failing == Some(SoftDelete) {
      return false;
    }
    var done := assets.SoftDelete(id, now);
    if failing == Some(DropRelations) {
      return false;
    }
    relations.DeleteByAsset(id);
    if failing == Some(DropMemberships) {
      return false;
    }
    collections.RemoveAssetFromAll(id, now);
    assert failing.Some? ==> failing.value.WriteEntry?;
    ok := true;
  }

  /** The table after a delete with its calls made up to the failing one. */
  ghost predicate RowsDeleted(
    rows: seq<AssetRow>, rows': seq<AssetRow>, id: string, failing: Option<Call>, when: Instant)
  {
    rows' == if Done(SoftDelete, failing) then UpdateRow(rows, id, Deleted(when)) else rows
  }

  /** A live row of the id is marked as deleted, and nothing else about any row changes. */
  ghost predicate SoftDeletedRow(rows: seq<AssetRow>, rows': seq<AssetRow>, id: string) {
    && |rows'| == |rows|
    && forall k :: 0 <= k < |rows| ==>
      if rows[k].id == id && rows[k].deletedAt.None? then
        rows'[k].deletedAt.Some? && rows'[k] == rows[k].(deletedAt := rows'[k].deletedAt)
      else rows'[k] == rows[k]
  }

  function RelationsLeft(rows: seq<Relation>, id: string, failing: Option<Call>): seq<Relation> {
    if Done(DropRelations, failing) then Filter(Apart(id), rows) else rows
  }

  function MembersLeft(members: set<Collections.Membership>, id: string, failing: Option<Call>)
    : set<Collections.Membership>
  {
    if Done(DropMemberships, failing) then members - Collections.HeldBy(members, id) else members
  }

  /** The one entry of the delete lists every relation that went. */
  ghost predicate EntryWritten(
    audit: seq<Audit.AuditRow>, audit': seq<Audit.AuditRow>, id: string, gone: seq<Relation>)
  {
    && Collections.Appended(audit, audit')
    && Collections.Last(audit').entityId == id && Collections.Last(audit').action == Audit.Delete
    && Collections.Last(audit').changes.Cascade?
    && Summarized(Collections.Last(audit').changes.removed, gone)
  }

  /** Of each relation its id, its two assets and its type. */
  ghost predicate Summarized(summaries: seq<Audit.Summary>, relations: seq<Relation>) {
    && |summaries| == |relations|
    && forall k :: 0 <= k < |relations| ==>
      && summaries[k].id == relations[k].id && summaries[k].kind == relations[k].kind
      && summaries[k].source == relations[k].source && summaries[k].target == relations[k].target
  }

  method Record(
    audit: Audit.Repository, id: string, gone: seq<Relation>, user: string, now: Instant)
    modifies audit
    ensures EntryWritten(old(audit.rows), audit.rows, id, gone)
  {
    var entry := audit.Create(
      "asset", id, Audit.Delete, Audit.Cascade(Map(Summarize, gone)), user, now);
  }

  /** `failing` is the call that fails, if one does; what was done before it stays done. */
  method Delete(
    assets: AssetRepository.Repository, relations: RelationRepository.Repository,
    collections: Collections.Repository, audit: Audit.Repository, clock: Clock,
    failing: Option<Call>, id: string, user: string)
    returns (result: Result<()>, ghost when: Instant)
    requires clock.Valid()
    modifies assets`rows, relations, collections, audit, clock
    ensures clock.Valid() && Nanos(old(clock.last)) <= Nanos(clock.last)
    ensures FindLive(old(assets.rows), id).None? ==>
      && result.Err? && assets.rows == old(assets.rows) && relations.rows == old(relations.rows)
      && collections.members == old(collections.members) && audit.rows == old(audit.rows)
    ensures FindLive(old(assets.rows), id).Some? ==>
      && (result.Ok? <==> failing.None?)
      && RowsDeleted(old(assets.rows), assets.rows, id, failing, when)
      && relations.rows == RelationsLeft(old(relations.rows), id, failing)
      && collections.members == MembersLeft(old(collections.members), id, failing)
      && if failing.None?
        then EntryWritten(old(audit.rows), audit.rows, id, Touching(old(relations.rows), id))
        else audit.rows == old(audit.rows)
    ensures result.Ok? ==>
      && SoftDeletedRow(old(assets.rows), assets.rows, id)
      && (forall r :: r in relations.rows <==>
        r in old(relations.rows) && r.source != id && r.target != id)
      && forall m :: m in collections.members <==> m in old(collections.members) && m.asset != id
    ensures RelationRuns.Shrinks(old(relations.rows), relations.rows)
    ensures !Interrupted(failing) ==>
      Collections.Step(old(assets.rows), old(collections.members), assets.rows, collections.members)
  {
    when := clock.last;
    if failing == Some(Lookup) {
      return Err(Internal), when;
    }
    var found := assets.GetById(id);
    if found.None? {
      return Err(NotFound), when;
    }
    ghost var rows, members, before := assets.rows, collections.members, relations.rows;
    result, when := DeleteFound(assets, relations, collections, audit, clock, failing, id, user);
    DeleteShrinksRelations(before, id, failing);
    FilterMembers(Apart(id), before);
    if !Interrupted(failing) {
      DeleteIsStep(rows, assets.rows, members, id, failing, when);
    }
  }

  method DeleteFound(
    assets: AssetRepository.Repository, relations: RelationRepository.Repository,
    collections: Collections.Repository, audit: Audit.Repository, clock: Clock,
    failing: Option<Call>, id: string, user: string)
    returns (result: Result<()>, ghost when: Instant)
    requires clock.Valid() && failing != Some(Lookup)
    modifies assets`rows, relations, collections, audit, clock
    ensures clock.Valid() && Nanos(old(clock.last)) <= Nanos(clock.last)
    ensures result.Ok? <==> failing.None?
    ensures RowsDeleted(old(assets.rows), assets.rows, id, failing, when)
    ensures relations.rows == RelationsLeft(old(relations.rows), id, failing)
    ensures collections.members == MembersLeft(old(collections.members), id, failing)
    ensures if failing.None?
      then EntryWritten(old(audit.rows), audit.rows, id, Touching(old(relations.rows), id))
      else audit.rows == old(audit.rows)
  {
    when := clock.last;
    if failing == Some(Snapshot) {
      return Err(Internal), when;
    }
    var cascaded := relations.GetAssetRelations(id);
    var now := clock.Now();
    when := now;
    var removed := Remove(assets, relations, collections, failing, id, now);
    if !removed || failing == Some(WriteEntry) {
      return Err(Internal), when;
    }
    Record(audit, id, cascaded, user, now);
    result := Ok(());
  }

  // ---------- The relations that went ----------

  lemma DeleteShrinksRelations(rows: seq<Relation>, id: string, failing: Option<Call>)
    ensures RelationRuns.Shrinks(rows, RelationsLeft(rows, id, failing))
  {
    FilterMembers(Apart(id), rows);
  }

  lemma {:induction false} FilterSplits<T>(p: T -> bool, q: T -> bool, s: seq<T>)
    requires forall x :: x in s ==> p(x) != q(x)
    ensures multiset(Filter(p, s)) + multiset(Filter(q, s)) == multiset(s)
  {
    if s != [] {
      var x, rest := s[0], s[1..];
      var yes, no := Filter(p, rest), Filter(q, rest);
      assert s == [x] + rest && x in s;
      FilterSplits(p, q, rest);
      OneMoreOfTwo(x, yes, no, rest);
      if p(x) {
        assert Filter(p, s) == [x] + yes && Filter(q, s) == no;
      } else {
        assert Filter(p, s) == yes && Filter(q, s) == [x] + no;
      }
    }
  }

  lemma OneMoreOfTwo<T>(x: T, s: seq<T>, t: seq<T>, both: seq<T>)
    requires multiset(s) + multiset(t) == multiset(both)
    ensures multiset([x] + s) + multiset(t) == multiset([x] + both)
    ensures multiset(s) + multiset([x] + t) == multiset([x] + both)
  {
    assert multiset([x] + t) == multiset{x} + multiset(t);
    assert multiset([x] + s) == multiset{x} + multiset(s);
    assert multiset([x] + both) == multiset{x} + multiset(both);
  }

  /** Nothing is lost: the relations there were are those that remain and those whose
      summaries the entry lists, each once, and none in both. */
  lemma CascadeIsConserved(rows: seq<Relation>, id: string)
    ensures multiset(rows) ==
      multiset(RelationsLeft(rows, id, None)) + multiset(Touching(rows, id))
    ensures forall r :: r in RelationsLeft(rows, id, None) ==> r !in Touching(rows, id)
  {
    var touching := (r: Relation) => Touches(r, id);
    FilterSplits(Apart(id), touching, rows);
    FilterMembers(Apart(id), rows);
    FilterMembers(touching, rows);
  }

  /** The rows that go are those that touched the asset, and nothing touches it afterwards. */
  lemma NoRelationIsLeft(rows: seq<Relation>, id: string, other: string)
    ensures Touching(Filter(Apart(id), rows), id) == []
    ensures (forall r :: r in rows && Touches(r, id) ==> !Touches(r, other)) ==>
      Touching(Filter(Apart(id), rows), other) == Touching(rows, other)
  {
    var left := Filter(Apart(id), rows);
    FilterMembers(Apart(id), rows);
    RelationRepository.TouchingMembers(left, id);
    EmptyOrInhabited(Touching(left, id));
    if forall r :: r in rows && Touches(r, id) ==> !Touches(r, other) {
      FilterTwice(Apart(id), (r: Relation) => Touches(r, other), rows);
      FilterAgrees(
        Both(Apart(id), (r: Relation) => Touches(r, other)), (r: Relation) => Touches(r, other), rows);
    }
  }

  // ---------- Collections hold live assets only ----------

  /** A soft-deleted asset is not found any more; every other is found as it was. */
  lemma {:induction false} FindLiveAfterDelete(rows: seq<AssetRow>, id: string, when: Instant, other: string)
    ensures FindLive(UpdateRow(rows, id, Deleted(when)), other) ==
      if other == id then None else FindLive(rows, other)
  {
    if rows != [] {
      FindLiveAfterDelete(rows[1..], id, when, other);
      var f := (r: AssetRow) => if r.id == id then Deleted(when)(r) else r;
      var head, rest := f(rows[0]), UpdateRow(rows[1..], id, Deleted(when));
      assert UpdateRow(rows, id, Deleted(when)) == [head] + rest;
      assert ([head] + rest)[1..] == rest;
      assert head.id == rows[0].id && (head.id == id ==> !head.Live());
    }
  }

  predicate Interrupted(failing: Option<Call>) {
    failing == Some(DropRelations) || failing == Some(DropMemberships)
  }

  /** A delete that is not interrupted between its soft delete and the dropping of memberships
      is a step. */
  lemma DeleteIsStep(
    rows: seq<AssetRow>, rows': seq<AssetRow>, members: set<Collections.Membership>, id: string,
    failing: Option<Call>, when: Instant)
    requires RowsDeleted(rows, rows', id, failing, when) && !Interrupted(failing)
    ensures Collections.Step(rows, members, rows', MembersLeft(members, id, failing))
  {
    if Done(SoftDelete, failing) {
      forall other | other != id
        ensures FindLive(rows', other) == FindLive(rows, other)
      {
        FindLiveAfterDelete(rows, id, when, other);
      }
      DoneToTheEnd(failing);
      assert Collections.Deletes(rows, members, rows', MembersLeft(members, id, failing), id);
    } else {
      assert MembersLeft(members, id, failing) == members;
    }
  }

  lemma DoneToTheEnd(failing: Option<Call>)
    requires Done(SoftDelete, failing) && !Interrupted(failing)
    ensures Done(DropMemberships, failing)
  {
    assert failing.None? || failing.value.WriteEntry?;
  }

  /** A live asset in a collection, and a delete that fails after its soft delete. */
  lemma InterruptionHappens(
    a: AssetRow, collection: string, rows': seq<AssetRow>, members: set<Collections.Membership>,
    when: Instant)
    requires a.Live() && members == {Collections.Membership(collection, a.id)}
    requires RowsDeleted([a], rows', a.id, Some(DropRelations), when)
    ensures Collections.LiveOnly([a], members)
    ensures !Collections.LiveOnly(rows', MembersLeft(members, a.id, Some(DropRelations)))
  {
    var m := Collections.Membership(collection, a.id);
    assert FindLive([a], a.id) == Some(a);
    assert m in Collections.HeldBy(members, a.id);
    InterruptedBreaks([a], rows', members, a.id, Some(DropRelations), when);
  }

  /** A delete keeps collections free of deleted assets, unless it fails after the soft delete
      and before the memberships are dropped while a collection holds the asset. */
  lemma DeleteKeepsLiveOnly(
    rows: seq<AssetRow>, rows': seq<AssetRow>, members: set<Collections.Membership>, id: string,
    failing: Option<Call>, when: Instant)
    requires Collections.LiveOnly(rows, members) && RowsDeleted(rows, rows', id, failing, when)
    ensures Collections.LiveOnly(rows', MembersLeft(members, id, failing)) <==>
      !(Collections.HeldBy(members, id) != {} && Interrupted(failing))
  {
    if Interrupted(failing) {
      InterruptedBreaks(rows, rows', members, id, failing, when);
    } else {
      DeleteIsStep(rows, rows', members, id, failing, when);
      Collections.StepKeepsLiveOnly(rows, members, rows', MembersLeft(members, id, failing));
    }
  }

  lemma InterruptedBreaks(
    rows: seq<AssetRow>, rows': seq<AssetRow>, members: set<Collections.Membership>, id: string,
    failing: Option<Call>, when: Instant)
    requires Collections.LiveOnly(rows, members) && RowsDeleted(rows, rows', id, failing, when)
    requires Interrupted(failing)
    ensures Collections.LiveOnly(rows', MembersLeft(members, id, failing)) <==>
      Collections.HeldBy(members, id) == {}
  {
    assert MembersLeft(members, id, failing) == members;
    forall m | m in members
      ensures FindLive(rows', m.asset).Some? <==> m.asset != id
    {
      FindLiveAfterDelete(rows, id, when, m.asset);
    }
    assert forall m :: m in Collections.HeldBy(members, id) <==> m in members && m.asset == id;
  }

  /** An asset under a given id, unless the id was ever used; a deleted asset is not revived.
      The asset and its audit entry are one transaction, which may fail as a whole. */
  method Adopt(
    assets: AssetRepository.Repository, audit: Audit.Repository, clock: Clock, id: string,
    title: string, content: Option<string>, tags: seq<Tag>, metadata: map<string, Json>,
    context: Option<AuthContext>, user: string, provenance: string, commits: bool)
    returns (result: Result<AssetRow>)
    requires clock.Valid()
    modifies assets`rows, audit, clock
    ensures clock.Valid()
    ensures
      var error := if Text.Blank(title) || Text.Blank(provenance) then Some(Validation)
        else if RelationService.Known(old(assets.rows), id) then Some(Conflict)
        else if !commits then Some(Internal) else None;
      match error
      case Some(e) => result == Err(e) && assets.rows == old(assets.rows) && audit.rows == old(audit.rows)
      case None =>
        && result.Ok? && result.value.id == id && result.value.Live()
        && result.value.title == title && result.value.content == content
        && result.value.tags == tags && result.value.metadata == metadata
        && result.value.context == Some(context.GetOr(DEFAULT_CONTEXT))
        && assets.rows == old(assets.rows) + [result.value]
        && Collections.Appended(old(audit.rows), audit.rows)
        && Collections.Last(audit.rows).action == Audit.Adopt
        && Collections.Last(audit.rows).entityId == id
    ensures StillLive(old(assets.rows), assets.rows)
    ensures UniqueIds(old(assets.rows)) ==> UniqueIds(assets.rows)
  {
    if Text.Blank(title) || Text.Blank(provenance) {
      return Err(Validation);
    }
    var known := assets.Exists(id);
    if known {
      return Err(Conflict);
    }
    var now := clock.Now();
    var row := AssetRow(
      id, title, content, Render(now), Render(now), user, None,
      Some(context.GetOr(DEFAULT_CONTEXT)), tags, metadata);
    if !commits {
      return Err(Internal);
    }
    assets.Insert(row);
    var entry := audit.Create("asset", id, Audit.Adopt, Audit.Plain, user, now);
    result := Ok(row);
  }
}
