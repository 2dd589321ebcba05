/** The directory of principals: entries are assets, found by their principal tag, and a
    backfill derives them from the user and agent assets. */
module Directory {
  import opened Outcomes
  import opened Models
  import opened Rfc3339
  import opened Tables
  import opened AssetRepository
  import opened Pagination
  import Ids
  import Roles

  const ENTRY_TYPE := "directory_entry"
  const PRINCIPAL_TAG := "principal"
  const BACKFILL_PAGE: nat := 200

  datatype Entry = Entry(
    uuid: string, name: Option<string>, kind: Option<string>, email: Option<string>,
    role: Option<string>)

  datatype Request = Request(
    name: Option<string>, kind: Option<string>, email: Option<string>, role: Option<string>)

  function ByPrincipal(uuid: string): Query {
    Query(None, [(PRINCIPAL_TAG, uuid)])
  }

  /** The asset behind a uuid: the newest live one with its principal tag. */
  function Backing(rows: seq<AssetRow>, fts: FullText, uuid: string): Option<AssetRow> {
    var all := Answer(rows, SEARCH_SCAN, Wanted(fts, ByPrincipal(uuid)));
    if all == [] then None else Some(all[0])
  }

  predicate IsEntry(r: AssetRow) {
    r.HasTag("type", ENTRY_TYPE)
  }

  function MetaText(r: AssetRow, key: string): Option<string> {
    if key in r.metadata && r.metadata[key].Text? then Some(r.metadata[key].text) else None
  }

  /** No name rather than a made-up one. */
  function ToEntry(r: AssetRow): Entry {
    Entry(
      MetaText(r, "principal_uuid").GetOr(r.id),
      if r.title == "" || "directory:" <= r.title then None else Some(r.title),
      MetaText(r, "kind"), MetaText(r, "email"), MetaText(r, "role"))
  }

  /** The entry shows what the asset has: a uuid of its own or else its id, a name that is not
      a made-up one, and of the rest what is text. */
  ghost predicate Presents(e: Entry, r: AssetRow) {
    && (if HasText(r, "principal_uuid", e.uuid) then true
        else e.uuid == r.id && forall s :: !HasText(r, "principal_uuid", s))
    && (forall s :: e.name == Some(s) <==> r.title == s && s != "" && !("directory:" <= s))
    && (forall s :: e.kind == Some(s) <==> HasText(r, "kind", s))
    && (forall s :: e.email == Some(s) <==> HasText(r, "email", s))
    && (forall s :: e.role == Some(s) <==> HasText(r, "role", s))
  }

  ghost predicate HasText(r: AssetRow, key: string, text: string) {
    key in r.metadata && r.metadata[key] == Text(text)
  }

  /** The error for a principal that does not resolve. */
  function Unresolved(uuid: string): ApiError {
    if uuid == "" then BadRequest else NotFound
  }

  predicate Resolves(rows: seq<AssetRow>, fts: FullText, uuid: string) {
    uuid != "" && Backing(rows, fts, uuid).Some? && IsEntry(Backing(rows, fts, uuid).value)
  }

  /** The newest live asset with the principal tag is a directory entry. */
  ghost predicate NewestIsEntry(rows: seq<AssetRow>, uuid: string) {
    exists r :: IsNewest(rows, "principal", uuid, r) && r.HasTag("type", "directory_entry")
  }

  lemma ResolvesInBrief(rows: seq<AssetRow>, fts: FullText, uuid: string)
    requires UniqueIds(rows)
    ensures Resolves(rows, fts, uuid) <==> uuid != "" && NewestIsEntry(rows, uuid)
    ensures Resolves(rows, fts, uuid) ==>
      IsNewest(rows, "principal", uuid, Backing(rows, fts, uuid).value)
  {
    NewestTagged(rows, fts, "principal", uuid);
    if NewestIsEntry(rows, uuid) {
      var r :| IsNewest(rows, "principal", uuid, r) && r.HasTag("type", "directory_entry");
      NewestIsUnique(rows, "principal", uuid, r, Backing(rows, fts, uuid).value);
    }
  }

  lemma ToEntryPresents(r: AssetRow)
    ensures Presents(ToEntry(r), r)
  {
    if "principal_uuid" in r.metadata && r.metadata["principal_uuid"].Text? {
      assert HasText(r, "principal_uuid", r.metadata["principal_uuid"].text);
    }
  }

  method FindBackingAsset(assets: Repository, uuid: string, now: Instant)
    returns (found: Option<AssetRow>)
    ensures found == Backing(assets.rows, assets.fts, uuid)
  {
    var page, _ := assets.Search(ByPrincipal(uuid), 1, None, now);
    Roles.FirstPageStartsAnswer(assets.rows, Wanted(assets.fts, ByPrincipal(uuid)), now);
    found := if page == [] then None else Some(page[0]);
  }

  method Resolve(assets: Repository, uuid: string, now: Instant) returns (result: Result<Entry>)
    ensures result.Ok? <==> Resolves(assets.rows, assets.fts, uuid)
    ensures result.Ok? ==> result.value == ToEntry(Backing(assets.rows, assets.fts, uuid).value)
    ensures result.Err? ==> result.error == Unresolved(uuid)
    ensures uuid == "" ==> result == Err(BadRequest)
    ensures uuid != "" && result.Err? ==> result == Err(NotFound)
    ensures UniqueIds(assets.rows) ==>
      (result.Ok? <==> uuid != "" && NewestIsEntry(assets.rows, uuid))
    ensures UniqueIds(assets.rows) && result.Ok? ==>
      exists r :: IsNewest(assets.rows, "principal", uuid, r) && Presents(result.value, r)
  {
    if uuid == "" {
      return Err(BadRequest);
    }
    var backing := FindBackingAsset(assets, uuid, now);
    if UniqueIds(assets.rows) {
      ResolvesInBrief(assets.rows, assets.fts, uuid);
    }
    if backing.Some? && IsEntry(backing.value) {
      ToEntryPresents(backing.value);
      return Ok(ToEntry(backing.value));
    }
    result := Err(NotFound);
  }

  // ---------- Upsert ----------

  function WithText(m: map<string, Json>, key: string, value: Option<string>): map<string, Json> {
    if value.Some? then m[key := Text(value.value)] else m
  }

  function EntryMetadata(uuid: string, q: Request): map<string, Json> {
    WithText(WithText(WithText(map["principal_uuid" := Text(uuid)], "kind", q.kind),
      "email", q.email), "role", q.role)
  }

  function EntryTitle(uuid: string, q: Request): string {
    q.name.GetOr("directory:" + uuid)
  }

  /** A new entry's row. */
  predicate IsNewEntry(row: AssetRow, uuid: string, q: Request, now: Instant) {
    && row.Live() && row.tags == [Tag("type", ENTRY_TYPE), Tag(PRINCIPAL_TAG, uuid)]
    && row.createdAt == Render(now) && row.updatedAt == Render(now)
    && row.title == EntryTitle(uuid, q) && row.metadata == EntryMetadata(uuid, q)
  }

  /** The row says what the request says of the principal. */
  ghost predicate Carries(row: AssetRow, uuid: string, q: Request) {
    && row.title == (if q.name.Some? then q.name.value else "directory:" + uuid)
    && HasText(row, "principal_uuid", uuid)
    && (forall s :: HasText(row, "kind", s) <==> q.kind == Some(s))
    && (forall s :: HasText(row, "email", s) <==> q.email == Some(s))
    && (forall s :: HasText(row, "role", s) <==> q.role == Some(s))
  }

  /** A live entry for the principal says it. */
  ghost predicate EntryStands(rows: seq<AssetRow>, uuid: string, q: Request) {
    exists r :: r in rows && r.Live() && r.HasTag("principal", uuid) && r.HasTag("type", "directory_entry")
      && Carries(r, uuid, q)
  }

  lemma RequestIsCarried(row: AssetRow, uuid: string, q: Request)
    requires row.title == EntryTitle(uuid, q) && row.metadata == EntryMetadata(uuid, q)
    ensures Carries(row, uuid, q)
  {
    assert "kind"[0] == 'k' && "email"[0] == 'e' && "role"[0] == 'r' && "principal_uuid"[0] == 'p';
  }

  lemma EditedStands(
    rows: seq<AssetRow>, fts: FullText, uuid: string, q: Request, r: AssetRow, now: Instant)
    requires UniqueIds(rows) && Backing(rows, fts, uuid) == Some(r) && IsEntry(r)
    ensures EntryStands(
      UpdateRow(rows, r.id, Edited(EntryTitle(uuid, q), EntryMetadata(uuid, q), now)), uuid, q)
  {
    BackingIsLive(rows, fts, uuid);
    var k :| 0 <= k < |rows| && rows[k] == r;
    var rows' := UpdateRow(rows, r.id, Edited(EntryTitle(uuid, q), EntryMetadata(uuid, q), now));
    assert rows'[k] in rows' && rows'[k].tags == r.tags;
    RequestIsCarried(rows'[k], uuid, q);
    assert rows'[k].HasTag("principal", uuid) && rows'[k].HasTag("type", "directory_entry");
  }

  lemma CreatedStands(
    rows: seq<AssetRow>, row: AssetRow, uuid: string, q: Request, now: Instant)
    requires IsNewEntry(row, uuid, q, now)
    ensures EntryStands(rows + [row], uuid, q)
  {
    RequestIsCarried(row, uuid, q);
    assert row.tags[0] == Tag("type", "directory_entry") && row.tags[1] == Tag("principal", uuid);
    assert row.HasTag("principal", uuid) && row.HasTag("type", "directory_entry");
    assert (rows + [row])[|rows|] == row;
  }

  /** An existing entry is edited in place, else a new one is created. */
  method Upsert(assets: Repository, clock: Clock, uuid: string, q: Request, user: string)
    returns (result: Result<Entry>)
    requires clock.Valid() && UniqueIds(assets.rows)
    modifies assets`rows, clock
    ensures clock.Valid() && Nanos(old(clock.last)) <= Nanos(clock.last)
    ensures uuid == "" ==> result == Err(BadRequest) && assets.rows == old(assets.rows)
    ensures uuid != "" ==>
      && (if Resolves(old(assets.rows), assets.fts, uuid) then
          assets.rows == UpdateRow(
            old(assets.rows), Backing(old(assets.rows), assets.fts, uuid).value.id,
            Edited(EntryTitle(uuid, q), EntryMetadata(uuid, q), clock.last))
        else Created(old(assets.rows), assets.rows, uuid, q, clock.last))
      && (result.Ok? <==> Resolves(assets.rows, assets.fts, uuid))
      && EntryStands(assets.rows, uuid, q)
    ensures result.Err? ==> result.error == Unresolved(uuid)
    ensures StillLive(old(assets.rows), assets.rows)
  {
    if uuid == "" {
      return Err(BadRequest);
    }
    var existing := FindBackingAsset(assets, uuid, clock.last);
    var now := clock.Now();
    if existing.Some? && IsEntry(existing.value) {
      BackingIsLive(assets.rows, assets.fts, uuid);
      EditedStands(assets.rows, assets.fts, uuid, q, existing.value, now);
      var done := assets.Update(existing.value.id, EntryTitle(uuid, q), EntryMetadata(uuid, q), now);
    } else {
      var id := Ids.NewId(set r | r in assets.rows :: r.id);
      var row := AssetRow(
        id, EntryTitle(uuid, q), None, Render(now), Render(now), user, None, Some(DEFAULT_CONTEXT),
        [Tag("type", ENTRY_TYPE), Tag(PRINCIPAL_TAG, uuid)], EntryMetadata(uuid, q));
      CreatedStands(assets.rows, row, uuid, q, now);
      assets.Insert(row);
    }
    result := Resolve(assets, uuid, now);
  }

  ghost predicate Created(
    rows: seq<AssetRow>, rows': seq<AssetRow>, uuid: string, q: Request, now: Instant)
  {
    && |rows'| == |rows| + 1 && rows' == rows + [rows'[|rows|]]
    && IsNewEntry(rows'[|rows|], uuid, q, now)
    && forall r :: r in rows ==> r.id != rows'[|rows|].id
  }

  lemma BackingIsLive(rows: seq<AssetRow>, fts: FullText, uuid: string)
    requires UniqueIds(rows) && Backing(rows, fts, uuid).Some?
    ensures Backing(rows, fts, uuid).value in rows && Backing(rows, fts, uuid).value.Live()
    ensures Backing(rows, fts, uuid).value.HasTag(PRINCIPAL_TAG, uuid)
    ensures FindLive(rows, Backing(rows, fts, uuid).value.id).Some?
  {
    var all := Answer(rows, SEARCH_SCAN, Wanted(fts, ByPrincipal(uuid)));
    AnswerIsSorted(rows, SEARCH_SCAN, Wanted(fts, ByPrincipal(uuid)), all);
    var r := all[0];
    assert r in all;
    assert Satisfies(fts, ByPrincipal(uuid), r);
    assert ByPrincipal(uuid).tags[0] == (PRINCIPAL_TAG, uuid);
    var k :| 0 <= k < |rows| && rows[k] == r;
    FindLiveFinds(rows, k);
  }

  /** What was put in, by creating or editing, comes out: all of it but a name that reads as
      none. */
  lemma EntryRoundTrip(row: AssetRow, uuid: string, q: Request)
    requires Carries(row, uuid, q)
    ensures ToEntry(row) == Entry(
      uuid,
      if q.name.None? || q.name.value == "" || "directory:" <= q.name.value then None else q.name,
      q.kind, q.email, q.role)
  {
    ToEntryPresents(row);
    var e := ToEntry(row);
    assert e.uuid == uuid && e.kind == q.kind && e.email == q.email && e.role == q.role by {
      assert q.kind.Some? ==> HasText(row, "kind", q.kind.value);
      assert q.email.Some? ==> HasText(row, "email", q.email.value);
      assert q.role.Some? ==> HasText(row, "role", q.role.value);
    }
  }
}
