/** Collections of assets: their table, the table of which assets they hold, and the service
    calls on them. */
module Collections {
  import opened Outcomes
  import opened Models
  import opened Rfc3339
  import opened Tables
  import AssetRepository
  import Audit
  import Ids

  datatype Collection = Collection(id: string, name: string, updatedAt: string)

  /** A row of `collection_assets`; the pair is its primary key. */
  datatype Membership = Membership(collection: string, asset: string)

  predicate Known(rows: seq<Collection>, id: string) {
    exists c :: c in rows && c.id == id
  }

  function Touch(rows: seq<Collection>, id: string, now: Instant): seq<Collection> {
    Map((c: Collection) => if c.id == id then c.(updatedAt := Render(now)) else c, rows)
  }

  function HeldBy(members: set<Membership>, asset: string): set<Membership> {
    set m | m in members && m.asset == asset
  }

  function HeldIn(members: set<Membership>, collection: string): set<Membership> {
    set m | m in members && m.collection == collection
  }

  /** Collections stay what they are, and only this one's stamp may be another. */
  ghost predicate OnlyStamped(rows: seq<Collection>, rows': seq<Collection>, id: string) {
    && |rows'| == |rows|
    && forall k :: 0 <= k < |rows| ==>
      && rows'[k].id == rows[k].id && rows'[k].name == rows[k].name
      && (rows[k].id != id ==> rows'[k] == rows[k])
  }

  class Repository {
    var rows: seq<Collection>
    var members: set<Membership>

    constructor ()
      ensures rows == [] && members == {}
    {
      rows, members := [], {};
    }

    method Create(name: string, now: Instant) returns (row: Collection)
      modifies this
      ensures row == Collection(row.id, name, Render(now))
      ensures rows == old(rows) + [row] && members == old(members) && !Known(old(rows), row.id)
    {
      var id := Ids.NewId(set c | c in rows :: c.id);
      row := Collection(id, name, Render(now));
      rows := rows + [row];
    }

    /** The memberships of a collection go with it: the foreign key cascades. */
    method Delete(id: string) returns (done: bool)
      modifies this
      ensures done <==> Known(old(rows), id)
      ensures rows == Filter((c: Collection) => c.id != id, old(rows))
      ensures members == if done then old(members) - HeldIn(old(members), id) else old(members)
    {
      done := Known(rows, id);
      rows := Filter((c: Collection) => c.id != id, rows);
      if done {
        members := members - HeldIn(members, id);
      }
    }

    method AddAsset(collection: string, asset: string, now: Instant) returns (done: bool)
      modifies this
      ensures done <==> Known(old(rows), collection)
      ensures members == if done then old(members) + {Membership(collection, asset)} else old(members)
      ensures rows == if done then Touch(old(rows), collection, now) else old(rows)
    {
      done := Known(rows, collection);
      if done {
        members := members + {Membership(collection, asset)};
        rows := Touch(rows, collection, now);
      }
    }

    /** Removing what is not there succeeds, as long as the collection is known. */
    method RemoveAsset(collection: string, asset: string, now: Instant) returns (done: bool)
      modifies this
      ensures done <==> Membership(collection, asset) in old(members) || Known(old(rows), collection)
      ensures members == old(members) - {Membership(collection, asset)}
      ensures rows == if done then Touch(old(rows), collection, now) else old(rows)
    {
      if Membership(collection, asset) !in members && !Known(rows, collection) {
        return false;
      }
      members := members - {Membership(collection, asset)};
      rows := Touch(rows, collection, now);
      done := true;
    }

    /** The second statement picks the collections to touch after the first has removed the
        rows it picks them by: it touches none. */
    method RemoveAssetFromAll(asset: string, now: Instant)
      modifies this
      ensures forall m :: m in members <==> m in old(members) && m.asset != asset
      ensures members == old(members) - HeldBy(old(members), asset)
      ensures rows == old(rows)
    {
      members := members - HeldBy(members, asset);
      var holders := set m | m in members && m.asset == asset :: m.collection;
      assert holders == {};
      var touched := Map(
        (c: Collection) => if c.id in holders then c.(updatedAt := Render(now)) else c, rows);
      assert touched == rows;
      rows := touched;
    }
  }

  // ---------- Collections hold live assets only ----------

  ghost predicate LiveOnly(rows: seq<AssetRow>, members: set<Membership>) {
    forall m :: m in members ==> AssetRepository.FindLive(rows, m.asset).Some?
  }

  /** Memberships go, or a live asset's is added. */
  ghost predicate Rearranges(rows: seq<AssetRow>, members: set<Membership>, members': set<Membership>) {
    forall m :: m in members' ==> m in members || AssetRepository.FindLive(rows, m.asset).Some?
  }

  /** An asset is deleted with its memberships, and no other. */
  ghost predicate Deletes(
    rows: seq<AssetRow>, members: set<Membership>, rows': seq<AssetRow>, members': set<Membership>,
    id: string)
  {
    && (forall other :: other != id ==>
      AssetRepository.FindLive(rows', other) == AssetRepository.FindLive(rows, other))
    && members' == members - HeldBy(members, id)
  }

  /** What a service call does to the assets and the memberships, if it is not interrupted. */
  ghost predicate Step(
    rows: seq<AssetRow>, members: set<Membership>, rows': seq<AssetRow>, members': set<Membership>)
  {
    || (rows' == rows && Rearranges(rows, members, members'))
    || (members' == members && AssetRepository.StillLive(rows, rows'))
    || exists id :: Deletes(rows, members, rows', members', id)
  }

  /** The two tables together. */
  datatype State = State(rows: seq<AssetRow>, members: set<Membership>)

  ghost predicate Run(tables: seq<State>) {
    |tables| > 0 && forall i :: 0 <= i < |tables| - 1 ==>
      Step(tables[i].rows, tables[i].members, tables[i + 1].rows, tables[i + 1].members)
  }

  /** A run of service calls leads from these tables to those. */
  ghost predicate Leads(
    rows: seq<AssetRow>, members: set<Membership>, rows': seq<AssetRow>, members': set<Membership>)
  {
    exists tables ::
      && Run(tables) && tables[0] == State(rows, members)
      && tables[|tables| - 1] == State(rows', members')
  }

  lemma StepKeepsLiveOnly(
    rows: seq<AssetRow>, members: set<Membership>, rows': seq<AssetRow>, members': set<Membership>)
    requires LiveOnly(rows, members) && Step(rows, members, rows', members')
    ensures LiveOnly(rows', members')
  {
  }

  /** Over every run of uninterrupted calls, no collection holds a deleted asset. */
  lemma {:induction false} EveryRunIsLiveOnly(
    tables: seq<State>, k: nat)
    requires Run(tables) && LiveOnly(tables[0].rows, tables[0].members) && k < |tables|
    ensures LiveOnly(tables[k].rows, tables[k].members)
  {
    if k > 0 {
      EveryRunIsLiveOnly(tables, k - 1);
      assert Step(tables[k - 1].rows, tables[k - 1].members,
        tables[k - 1 + 1].rows, tables[k - 1 + 1].members);
      StepKeepsLiveOnly(tables[k - 1].rows, tables[k - 1].members, tables[k].rows, tables[k].members);
    }
  }

  lemma LeadsNowhere(rows: seq<AssetRow>, members: set<Membership>)
    ensures Leads(rows, members, rows, members)
  {
    assert Run([State(rows, members)]);
  }

  lemma LeadsOneMore(
    rows: seq<AssetRow>, members: set<Membership>, rows': seq<AssetRow>, members': set<Membership>,
    rows'': seq<AssetRow>, members'': set<Membership>)
    requires Leads(rows, members, rows', members') && Step(rows', members', rows'', members'')
    ensures Leads(rows, members, rows'', members'')
  {
    var tables :|
      && Run(tables) && tables[0] == State(rows, members)
      && tables[|tables| - 1] == State(rows', members');
    var longer := tables + [State(rows'', members'')];
    forall i | 0 <= i < |longer| - 1
      ensures Step(longer[i].rows, longer[i].members, longer[i + 1].rows, longer[i + 1].members)
    {
      if i < |tables| - 1 {
        assert Step(tables[i].rows, tables[i].members, tables[i + 1].rows, tables[i + 1].members);
      }
    }
    assert Run(longer);
  }

  // ---------- Service calls ----------

  method AddAsset(
    assets: AssetRepository.Repository, collections: Repository, audit: Audit.Repository,
    clock: Clock, collection: string, asset: string, user: string)
    returns (result: Result<()>)
    requires clock.Valid()
    modifies collections, audit, clock
    ensures clock.Valid()
    ensures
      if AssetRepository.FindLive(assets.rows, asset).None? || !Known(old(collections.rows), collection)
      then
        && result == Err(NotFound)
        && collections.members == old(collections.members) && audit.rows == old(audit.rows)
      else
        && result.Ok?
        && collections.members == old(collections.members) + {Membership(collection, asset)}
        && Appended(old(audit.rows), audit.rows)
        && Last(audit.rows).action == Audit.AddToCollection
        && Last(audit.rows).entityId == collection
        && Last(audit.rows).changes == Audit.AssetChange(asset)
    ensures OnlyStamped(old(collections.rows), collections.rows, collection)
    ensures Step(assets.rows, old(collections.members), assets.rows, collections.members)
  {
    var found := assets.GetById(asset);
    if found.None? {
      return Err(NotFound);
    }
    var now := clock.Now();
    var done := collections.AddAsset(collection, asset, now);
    if !done {
      return Err(NotFound);
    }
    var entry := audit.Create(
      "collection", collection, Audit.AddToCollection, Audit.AssetChange(asset), user, now);
    result := Ok(());
  }

  method RemoveAsset(
    collections: Repository, audit: Audit.Repository, clock: Clock, collection: string,
    asset: string, user: string)
    returns (result: Result<()>)
    requires clock.Valid()
    modifies collections, audit, clock
    ensures clock.Valid()
    ensures result.Ok? <==>
      Membership(collection, asset) in old(collections.members) || Known(old(collections.rows), collection)
    ensures result.Err? ==> result == Err(NotFound) && audit.rows == old(audit.rows)
    ensures collections.members == old(collections.members) - {Membership(collection, asset)}
    ensures result.Ok? ==>
      && Appended(old(audit.rows), audit.rows) && Last(audit.rows).entityId == collection
      && Last(audit.rows).action == Audit.RemoveFromCollection
      && Last(audit.rows).changes == Audit.AssetChange(asset)
    ensures OnlyStamped(old(collections.rows), collections.rows, collection)
    ensures forall rows :: Step(rows, old(collections.members), rows, collections.members)
  {
    var now := clock.Now();
    var done := collections.RemoveAsset(collection, asset, now);
    if !done {
      return Err(NotFound);
    }
    var entry := audit.Create(
      "collection", collection, Audit.RemoveFromCollection, Audit.AssetChange(asset), user, now);
    result := Ok(());
  }

  method Delete(
    collections: Repository, audit: Audit.Repository, clock: Clock, id: string, user: string)
    returns (result: Result<()>)
    requires clock.Valid()
    modifies collections, audit, clock
    ensures clock.Valid()
    ensures result == if Known(old(collections.rows), id) then Ok(()) else Err(NotFound)
    ensures collections.members == if result.Ok?
      then old(collections.members) - HeldIn(old(collections.members), id)
      else old(collections.members)
    ensures result.Ok? ==>
      && (forall c :: c in collections.rows <==> c in old(collections.rows) && c.id != id)
      && (forall m :: m in collections.members <==> m in old(collections.members) && m.collection != id)
      && Appended(old(audit.rows), audit.rows) && Last(audit.rows).entityId == id
      && Last(audit.rows).action == Audit.Delete
    ensures result.Err? ==> collections.rows == old(collections.rows) && audit.rows == old(audit.rows)
    ensures forall rows :: Step(rows, old(collections.members), rows, collections.members)
  {
    if !Known(collections.rows, id) {
      return Err(NotFound);
    }
    FilterMembers((c: Collection) => c.id != id, collections.rows);
    var done := collections.Delete(id);
    var now := clock.Now();
    var entry := audit.Create("collection", id, Audit.Delete, Audit.Plain, user, now);
    result := Ok(());
  }

  ghost predicate Appended(rows: seq<Audit.AuditRow>, rows': seq<Audit.AuditRow>) {
    |rows'| == |rows| + 1 && rows'[..|rows|] == rows
  }

  function Last(rows: seq<Audit.AuditRow>): Audit.AuditRow
    requires rows != []
  {
    rows[|rows| - 1]
  }
}
