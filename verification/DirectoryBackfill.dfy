/** The directory backfill: an entry for every user and agent that does not resolve yet. */
module DirectoryBackfill {
  import opened Outcomes
  import opened Models
  import opened Rfc3339
  import opened Tables
  import opened AssetRepository
  import opened Pagination
  import opened Directory
  import Lexical

  /** The principal an asset stands for. */
  function Uuid(a: AssetRow): string {
    FirstTag(a.tags, "sub").GetOr(a.id)
  }

  /** The username, else a title that is not just the uuid or the email over again. */
  function DisplayName(a: AssetRow): Option<string> {
    if FirstTag(a.tags, "username").Some? then FirstTag(a.tags, "username")
    else if a.title == Uuid(a) || FirstTag(a.tags, "email") == Some(a.title) then None
    else Some(a.title)
  }

  function Derived(a: AssetRow, assetType: string): Request {
    Request(
      DisplayName(a), Some(if assetType == "agent" then "agent" else "human"),
      FirstTag(a.tags, "email"), None)
  }

  function Walked(fts: FullText, assetType: string): AssetRow -> bool {
    Wanted(fts, Typed(assetType))
  }

  // ---------- A new entry ----------

  /** No asset but an entry has a principal tag and a stamp as late as the clock. */
  ghost predicate NoneInTheWay(rows: seq<AssetRow>, now: Instant) {
    forall r :: r in rows && r.Live() && r.HasCategory(PRINCIPAL_TAG) && !IsEntry(r) ==>
      Lexical.Less(r.updatedAt, Render(now))
  }

  /** A table no stamp of which is later than the clock; `clear` if none is in the way. */
  ghost predicate Ready(rows: seq<AssetRow>, now: Instant, clear: bool) {
    WellFormed(rows) && NotBefore(now, rows) && (clear ==> NoneInTheWay(rows, now))
  }

  lemma NewEntryTags(row: AssetRow, uuid: string, q: Request, now: Instant)
    requires IsNewEntry(row, uuid, q, now)
    ensures IsEntry(row)
    ensures forall v :: row.HasTag(PRINCIPAL_TAG, v) <==> v == uuid
    ensures forall v :: row.HasTag("type", v) <==> v == ENTRY_TYPE
  {
    assert row.tags[0] == Tag("type", ENTRY_TYPE) && row.tags[1] == Tag(PRINCIPAL_TAG, uuid);
  }

  lemma CreatedKeepsReady(
    rows: seq<AssetRow>, rows': seq<AssetRow>, uuid: string, q: Request, last: Instant, now: Instant,
    clear: bool)
    requires Ready(rows, last, clear) && Created(rows, rows', uuid, q, now)
    requires now.Valid() && Nanos(last) <= Nanos(now)
    ensures Ready(rows', now, clear)
  {
    LaterKeepsReady(rows, last, now, clear);
    CreatedKeepsWellFormed(rows, rows', uuid, q, now);
    NewEntryTags(rows'[|rows|], uuid, q, now);
  }

  lemma CreatedKeepsWellFormed(
    rows: seq<AssetRow>, rows': seq<AssetRow>, uuid: string, q: Request, now: Instant)
    requires WellFormed(rows) && NotBefore(now, rows) && Created(rows, rows', uuid, q, now)
    ensures WellFormed(rows') && NotBefore(now, rows')
  {
    assert IsStamp(Render(now));
    assert forall i :: 0 <= i < |rows| ==> rows[i] in rows;
  }

  lemma LaterKeepsReady(rows: seq<AssetRow>, last: Instant, now: Instant, clear: bool)
    requires Ready(rows, last, clear) && now.Valid() && Nanos(last) <= Nanos(now)
    ensures Ready(rows, now, clear)
  {
    LaterStillNotBefore(last, now, rows);
    StampsFollowClock(last, now);
    forall r | clear && r in rows && r.Live() && r.HasCategory(PRINCIPAL_TAG) && !IsEntry(r)
      ensures Lexical.Less(r.updatedAt, Render(now))
    {
      if Render(last) != Render(now) {
        Lexical.Transitive(r.updatedAt, Render(last), Render(now));
      }
    }
  }

  /** The newest of a principal's assets. */
  lemma BackingIsNewest(rows: seq<AssetRow>, fts: FullText, uuid: string, r: AssetRow)
    requires UniqueIds(rows) && r in rows && Satisfies(fts, ByPrincipal(uuid), r)
    ensures Backing(rows, fts, uuid).Some?
    ensures
      var newest := Backing(rows, fts, uuid).value;
      newest == r || RowBefore(SEARCH_SCAN, newest, r)
  {
    var all := Answer(rows, SEARCH_SCAN, Wanted(fts, ByPrincipal(uuid)));
    AnswerIsSorted(rows, SEARCH_SCAN, Wanted(fts, ByPrincipal(uuid)), all);
    assert r in all;
    var k :| 0 <= k < |all| && all[k] == r;
    assert k > 0 ==> Order(SEARCH_SCAN)(all[0], all[k]);
  }

  lemma IsByPrincipal(fts: FullText, uuid: string, r: AssetRow)
    ensures Satisfies(fts, ByPrincipal(uuid), r) <==> r.Live() && r.HasTag(PRINCIPAL_TAG, uuid)
  {
    assert ByPrincipal(uuid).tags[0] == (PRINCIPAL_TAG, uuid);
  }

  /** With none in the way, a principal resolves once its entry is created. */
  lemma CreatedResolves(
    rows: seq<AssetRow>, rows': seq<AssetRow>, fts: FullText, uuid: string, q: Request, last: Instant,
    now: Instant)
    requires Ready(rows, last, true) && Created(rows, rows', uuid, q, now) && uuid != ""
    requires now.Valid() && Nanos(last) <= Nanos(now)
    ensures Resolves(rows', fts, uuid)
  {
    var row := rows'[|rows|];
    CreatedKeepsReady(rows, rows', uuid, q, last, now, true);
    LaterKeepsReady(rows, last, now, true);
    NewEntryTags(row, uuid, q, now);
    IsByPrincipal(fts, uuid, row);
    assert row.HasTag(PRINCIPAL_TAG, uuid);
    BackingIsNewest(rows', fts, uuid, row);
    var newest := Backing(rows', fts, uuid).value;
    BackingIsLive(rows', fts, uuid);
    if newest != row {
      assert newest in rows;
      NotNewerThanClock(newest, row, now);
      var tag :| tag in newest.tags && tag.category == PRINCIPAL_TAG && tag.value == uuid;
      assert newest.HasCategory(PRINCIPAL_TAG);
      Lexical.Irreflexive(newest.updatedAt);
    }
  }

  /** In general: a new entry for a principal that did not resolve is found, unless the
      principal's newest asset bears the very same stamp and a greater id. */
  lemma CreatedResolvesExactly(
    rows: seq<AssetRow>, rows': seq<AssetRow>, fts: FullText, uuid: string, q: Request, now: Instant)
    requires WellFormed(rows) && NotBefore(now, rows) && Created(rows, rows', uuid, q, now)
    requires uuid != "" && !Resolves(rows, fts, uuid)
    ensures
      var newest := Backing(rows, fts, uuid);
      Resolves(rows', fts, uuid) <==>
        !(newest.Some? && newest.value.updatedAt == Render(now)
          && Lexical.Less(rows'[|rows|].id, newest.value.id))
  {
    var row := rows'[|rows|];
    CreatedKeepsWellFormed(rows, rows', uuid, q, now);
    NewEntryTags(row, uuid, q, now);
    IsByPrincipal(fts, uuid, row);
    assert row.HasTag(PRINCIPAL_TAG, uuid);
    BackingIsNewest(rows', fts, uuid, row);
    BackingIsLive(rows', fts, uuid);
    var newest' := Backing(rows', fts, uuid).value;
    IsByPrincipal(fts, uuid, newest');
    if newest' != row {
      BackingIsNewest(rows, fts, uuid, newest');
      BackingIsLive(rows, fts, uuid);
      var newest := Backing(rows, fts, uuid).value;
      IsByPrincipal(fts, uuid, newest);
      BackingIsNewest(rows', fts, uuid, newest);
      NeitherBefore(newest, newest');
      NotNewerThanClock(newest', row, now);
      Lexical.Irreflexive(Render(now));
    } else if Backing(rows, fts, uuid).Some? {
      BackingIsLive(rows, fts, uuid);
      var newest := Backing(rows, fts, uuid).value;
      IsByPrincipal(fts, uuid, newest);
      BackingIsNewest(rows', fts, uuid, newest);
      NeitherBefore(row, newest);
    }
  }

  /** Two rows are not each before the other. */
  lemma NeitherBefore(x: AssetRow, y: AssetRow)
    ensures !(RowBefore(SEARCH_SCAN, x, y) && RowBefore(SEARCH_SCAN, y, x))
  {
    KeyTotal(true, x.updatedAt, x.id, y.updatedAt, y.id);
  }

  lemma NotNewerThanClock(newest: AssetRow, row: AssetRow, now: Instant)
    requires RowBefore(SEARCH_SCAN, newest, row) && row.updatedAt == Render(now)
    requires Lexical.AtMost(newest.updatedAt, Render(now))
    ensures newest.updatedAt == Render(now)
  {
    if Lexical.Less(Render(now), newest.updatedAt) {
      Lexical.Asymmetric(Render(now), newest.updatedAt);
      Lexical.Irreflexive(Render(now));
    }
  }

  /** An entry for one principal changes the backing of no other, nor what the walk finds. */
  lemma CreatedElsewhere(
    rows: seq<AssetRow>, rows': seq<AssetRow>, fts: FullText, uuid: string, q: Request, now: Instant,
    other: string)
    requires Created(rows, rows', uuid, q, now) && other != uuid
    ensures Resolves(rows', fts, other) <==> Resolves(rows, fts, other)
  {
    var row := rows'[|rows|];
    NewEntryTags(row, uuid, q, now);
    IsByPrincipal(fts, other, row);
    assert !row.HasTag(PRINCIPAL_TAG, other);
    FilterSkipsLast(Wanted(fts, ByPrincipal(other)), rows, row);
  }

  // ---------- The walk over one type ----------

  /** Only a directory entry's tags: no walk over another type finds it. */
  predicate Added(row: AssetRow) {
    |row.tags| == 2 && row.tags[0] == Tag("type", ENTRY_TYPE) && row.tags[1].category == PRINCIPAL_TAG
  }

  /** The entry tells of the asset: whom it stands for, of what kind, and what the asset's tags
      and title say of name and email. */
  ghost predicate Describes(row: AssetRow, a: AssetRow) {
    var uuid := FirstTag(a.tags, "sub").GetOr(a.id);
    var username, email := FirstTag(a.tags, "username"), FirstTag(a.tags, "email");
    && row.HasTag("principal", uuid) && HasText(row, "principal_uuid", uuid)
    && (
      || (a.HasTag("type", "user") && HasText(row, "kind", "human"))
      || (a.HasTag("type", "agent") && HasText(row, "kind", "agent")))
    && row.title == (
      if username.Some? then username.value
      else if a.title != uuid && email != Some(a.title) then a.title
      else "directory:" + uuid)
    && (forall s :: HasText(row, "email", s) <==> email == Some(s))
    && (forall s :: !HasText(row, "role", s))
  }

  ghost predicate DescribesOne(row: AssetRow, rows: seq<AssetRow>) {
    exists a :: a in rows && a.Live() && Describes(row, a)
  }

  /** A live asset of the walk over one of the two types. */
  predicate OfType(assetType: string, a: AssetRow) {
    (assetType == "user" || assetType == "agent") && a.Live() && a.HasTag("type", assetType)
  }

  /** Every entry made for an asset of the walk is fit, whatever `fit` asks of an entry. */
  ghost predicate Fits(fit: AssetRow -> bool, assetType: string, all: seq<AssetRow>) {
    forall a, row, now {:trigger IsNewEntry(row, Uuid(a), Derived(a, assetType), now)} ::
      a in all && IsNewEntry(row, Uuid(a), Derived(a, assetType), now) ==> fit(row)
  }

  /** The entries made so far are. */
  ghost predicate AllFit(fit: AssetRow -> bool, rows: seq<AssetRow>, rows': seq<AssetRow>) {
    |rows| <= |rows'| && forall k :: |rows| <= k < |rows'| ==> fit(rows'[k])
  }

  ghost predicate AllDescribe(rows: seq<AssetRow>, rows': seq<AssetRow>) {
    |rows| <= |rows'| && forall k :: |rows| <= k < |rows'| ==> DescribesOne(rows'[k], rows)
  }

  lemma FitTwice(
    fit: AssetRow -> bool, rows: seq<AssetRow>, rows': seq<AssetRow>, rows'': seq<AssetRow>)
    requires AllFit(fit, rows, rows') && AllFit(fit, rows', rows'') && Extended(rows', rows'')
    ensures AllFit(fit, rows, rows'')
  {
    forall k | |rows| <= k < |rows''|
      ensures fit(rows''[k])
    {
      if k < |rows'| {
        assert rows''[..|rows'|][k] == rows'[k];
      }
    }
  }

  lemma CreatedFits(
    fit: AssetRow -> bool, assetType: string, rows: seq<AssetRow>, rows': seq<AssetRow>,
    rows'': seq<AssetRow>, all: seq<AssetRow>, n: nat, now: Instant)
    requires Fits(fit, assetType, all) && AllFit(fit, rows, rows') && n < |all|
    requires Created(rows', rows'', Uuid(all[n]), Derived(all[n], assetType), now)
    ensures AllFit(fit, rows, rows'')
  {
    assert all[n] in all && IsNewEntry(
      rows''[|rows'|], Uuid(all[n]), Derived(all[n], assetType), now);
    forall k | |rows| <= k < |rows''|
      ensures fit(rows''[k])
    {
      if k < |rows'| {
        assert rows''[k] == rows'[k];
      }
    }
  }

  lemma NewEntryDescribes(row: AssetRow, a: AssetRow, assetType: string, now: Instant)
    requires OfType(assetType, a) && IsNewEntry(row, Uuid(a), Derived(a, assetType), now)
    ensures Describes(row, a)
  {
    var uuid, q := Uuid(a), Derived(a, assetType);
    RequestIsCarried(row, uuid, q);
    NewEntryTags(row, uuid, q, now);
    assert "user"[0] == 'u' && "agent"[0] == 'a';
    assert HasText(row, "kind", q.kind.value);
  }

  lemma EntryIsOfNeither(assetType: string, a: AssetRow)
    requires Added(a)
    ensures !OfType(assetType, a)
  {
    assert "type"[0] == 't' && PRINCIPAL_TAG[0] == 'p';
    assert ENTRY_TYPE[0] == 'd' && "user"[0] == 'u' && "agent"[0] == 'a';
    assert forall t :: t in a.tags ==> t == a.tags[0] || t == a.tags[1];
  }

  /** Rows were only added, all of them entries. */
  ghost predicate Extended(rows: seq<AssetRow>, rows': seq<AssetRow>) {
    && |rows| <= |rows'| && rows'[..|rows|] == rows
    && forall k :: |rows| <= k < |rows'| ==> Added(rows'[k])
  }

  /** The principals that resolve, as a function of the rows: the walk needs no more of them. */
  type Knowledge = seq<AssetRow> -> iset<string>

  ghost predicate Tells(known: Knowledge, fts: FullText) {
    forall rows, v {:trigger v in known(rows), Resolves(rows, fts, v)} ::
      v in known(rows) <==> Resolves(rows, fts, v)
  }

  lemma Teller(fts: FullText) returns (known: Knowledge)
    ensures Tells(known, fts)
  {
    known := rows => iset v | Resolves(rows, fts, v);
  }

  /** The principals of the first `n` assets of the walk. */
  ghost function Handled(all: seq<AssetRow>, n: nat): iset<string>
    requires n <= |all|
  {
    if n == 0 then iset{} else Handled(all, n - 1) + iset{Uuid(all[n - 1])}
  }

  ghost function Principals(all: seq<AssetRow>): iset<string> {
    Handled(all, |all|)
  }

  /** The walk has dealt with the first `n` of its assets: their principals have come to
      resolve, and no other. */
  ghost predicate Reached(
    known: Knowledge, rows: seq<AssetRow>, rows': seq<AssetRow>, all: seq<AssetRow>, n: nat)
  {
    Extended(rows, rows') && n <= |all| && known(rows') == known(rows) + Handled(all, n)
  }

  /** ... and `created` entries were made for it, none if all resolved before. */
  ghost predicate Filling(
    known: Knowledge, rows: seq<AssetRow>, rows': seq<AssetRow>, all: seq<AssetRow>, n: nat,
    created: nat)
  {
    && Reached(known, rows, rows', all, n) && |rows'| == |rows| + created
    && (Principals(all) <= known(rows) ==> created == 0)
  }

  /** The walk ended before its `n`-th asset, whose principal still does not resolve; in a
      clear table it is an empty one. */
  ghost predicate StopsAt(
    known: Knowledge, rows: seq<AssetRow>, rows': seq<AssetRow>, all: seq<AssetRow>, n: nat, clear: bool)
  {
    && Reached(known, rows, rows', all, n)
    && (n < |all| ==> Uuid(all[n]) !in known(rows') && (clear ==> Uuid(all[n]) == ""))
  }

  lemma {:induction false} HandledMembers(all: seq<AssetRow>, n: nat)
    requires n <= |all|
    ensures forall v :: v in Handled(all, n) <==> exists k :: 0 <= k < n && Uuid(all[k]) == v
  {
    if n > 0 {
      HandledMembers(all, n - 1);
    }
  }

  lemma IsHandled(all: seq<AssetRow>, k: nat, n: nat)
    requires k < n <= |all|
    ensures Uuid(all[k]) in Handled(all, n)
  {
    HandledMembers(all, n);
  }

  lemma AddedIsNotWalked(fts: FullText, assetType: string, row: AssetRow)
    requires Added(row) && assetType != ENTRY_TYPE
    ensures !Walked(fts, assetType)(row)
  {
    assert Typed(assetType).tags[0] == ("type", assetType);
    if t :| t in row.tags && t.category == "type" && t.value == assetType {
      assert t == row.tags[0] || t == row.tags[1];
    }
  }

  lemma {:induction false} NoneWalked(
    fts: FullText, assetType: string, p: AssetRow -> bool, rows: seq<AssetRow>, rows': seq<AssetRow>)
    requires assetType != ENTRY_TYPE && forall r :: p(r) ==> Walked(fts, assetType)(r)
    requires |rows| <= |rows'| && rows'[..|rows|] == rows
    requires forall k :: |rows| <= k < |rows'| ==> Added(rows'[k])
    ensures Filter(p, rows') == Filter(p, rows)
    decreases |rows'|
  {
    if |rows'| == |rows| {
      assert rows' == rows;
    } else {
      var front, last := rows'[..|rows'| - 1], rows'[|rows'| - 1];
      assert rows' == front + [last] && front[..|rows|] == rows;
      NoneWalked(fts, assetType, p, rows, front);
      AddedIsNotWalked(fts, assetType, last);
      FilterSkipsLast(p, front, last);
    }
  }

  lemma SamePage(
    fts: FullText, assetType: string, rows: seq<AssetRow>, rows': seq<AssetRow>,
    cursor: Option<string>, now: Instant)
    requires assetType != ENTRY_TYPE && |rows| <= |rows'| && rows'[..|rows|] == rows
    requires forall k :: |rows| <= k < |rows'| ==> Added(rows'[k])
    ensures Page(rows', SEARCH_SCAN, Walked(fts, assetType), BACKFILL_PAGE, cursor, now)
      == Page(rows, SEARCH_SCAN, Walked(fts, assetType), BACKFILL_PAGE, cursor, now)
  {
    var wanted := Walked(fts, assetType);
    NoneWalked(fts, assetType, (r: AssetRow) => wanted(r) && PastCursor(SEARCH_SCAN, cursor, r), rows, rows');
  }

  /** The entries created meanwhile do not disturb the walk. */
  lemma PageUndisturbed(
    fts: FullText, assetType: string, rows: seq<AssetRow>, rows': seq<AssetRow>,
    all: seq<AssetRow>, i: nat, now: Instant, page: seq<AssetRow>, next: Option<string>)
    returns (i': nat)
    requires WellFormed(rows) && assetType != ENTRY_TYPE
    requires all == Answer(rows, SEARCH_SCAN, Walked(fts, assetType)) && i <= |all|
    requires |rows| <= |rows'| && rows'[..|rows|] == rows
    requires forall k :: |rows| <= k < |rows'| ==> Added(rows'[k])
    requires (page, next) == Page(
      rows', SEARCH_SCAN, Walked(fts, assetType), BACKFILL_PAGE, WalkCursor(all, i), now)
    ensures i <= i' <= |all| && page == all[i..i']
    ensures if next.Some? then i < i' && next == WalkCursor(all, i') else i' == |all|
  {
    SamePage(fts, assetType, rows, rows', WalkCursor(all, i), now);
    i' := SearchPageElements(
      rows, Walked(fts, assetType), BACKFILL_PAGE, i, now, all, page, next);
  }

  lemma FillingSkips(
    known: Knowledge, rows: seq<AssetRow>, rows': seq<AssetRow>, all: seq<AssetRow>, n: nat,
    created: nat)
    requires Filling(known, rows, rows', all, n, created) && n < |all|
    requires Uuid(all[n]) in known(rows')
    ensures Filling(known, rows, rows', all, n + 1, created)
  {
    assert Handled(all, n + 1) == Handled(all, n) + iset{Uuid(all[n])};
  }

  lemma ExtendedOneMore(
    rows: seq<AssetRow>, rows': seq<AssetRow>, rows'': seq<AssetRow>, uuid: string, q: Request,
    now: Instant)
    requires Extended(rows, rows') && Created(rows', rows'', uuid, q, now)
    ensures Extended(rows, rows'')
  {
    assert rows''[..|rows|] == rows'[..|rows|];
    forall k | |rows| <= k < |rows''|
      ensures Added(rows''[k])
    {
      if k < |rows'| {
        assert rows''[k] == rows'[k];
      }
    }
  }

  /** An entry makes its own principal resolve, if any. */
  lemma CreatedKnown(
    known: Knowledge, fts: FullText, rows: seq<AssetRow>, rows': seq<AssetRow>, uuid: string,
    q: Request, now: Instant)
    requires Tells(known, fts) && uuid !in known(rows) && Created(rows, rows', uuid, q, now)
    ensures known(rows') == known(rows) + if uuid in known(rows') then iset{uuid} else iset{}
  {
    forall v | v != uuid
      ensures v in known(rows') <==> v in known(rows)
    {
      CreatedElsewhere(rows, rows', fts, uuid, q, now, v);
    }
  }

  lemma FillingGrows(
    known: Knowledge, rows: seq<AssetRow>, rows': seq<AssetRow>, rows'': seq<AssetRow>,
    all: seq<AssetRow>, n: nat, created: nat)
    requires Filling(known, rows, rows', all, n, created) && n < |all|
    requires Extended(rows, rows'') && |rows''| == |rows'| + 1
    requires
      var uuid := Uuid(all[n]);
      uuid !in known(rows') && known(rows'') == known(rows') + iset{uuid}
    ensures Filling(known, rows, rows'', all, n + 1, created + 1)
  {
    assert Handled(all, n + 1) == Handled(all, n) + iset{Uuid(all[n])};
    IsHandled(all, n, |all|);
  }

  lemma FillingCreates(
    known: Knowledge, fts: FullText, rows: seq<AssetRow>, rows': seq<AssetRow>,
    rows'': seq<AssetRow>, all: seq<AssetRow>, n: nat, created: nat, q: Request, last: Instant,
    now: Instant, clear: bool)
    requires Tells(known, fts) && Ready(rows', last, clear)
    requires Filling(known, rows, rows', all, n, created) && n < |all|
    requires Uuid(all[n]) != "" && Uuid(all[n]) !in known(rows')
    requires Created(rows', rows'', Uuid(all[n]), q, now)
    requires now.Valid() && Nanos(last) <= Nanos(now)
    ensures
      if Uuid(all[n]) in known(rows'') then Filling(known, rows, rows'', all, n + 1, created + 1)
      else StopsAt(known, rows, rows'', all, n, clear)
  {
    var uuid := Uuid(all[n]);
    ExtendedOneMore(rows, rows', rows'', uuid, q, now);
    CreatedKnown(known, fts, rows', rows'', uuid, q, now);
    if uuid in known(rows'') {
      FillingGrows(known, rows, rows', rows'', all, n, created);
    } else if clear {
      CreatedResolves(rows', rows'', fts, uuid, q, last, now);
    }
  }

  /** One asset of the walk. */
  method FillOne(
    assets: Repository, clock: Clock, asset: AssetRow, assetType: string, user: string,
    before: nat, ghost known: Knowledge, ghost fit: AssetRow -> bool, ghost rows: seq<AssetRow>,
    ghost all: seq<AssetRow>, ghost n: nat, ghost clear: bool)
    returns (created: nat, error: Option<ApiError>)
    requires clock.Valid() && Ready(assets.rows, clock.last, clear) && Tells(known, assets.fts)
    requires n < |all| && asset == all[n] && Filling(known, rows, assets.rows, all, n, before)
    requires Fits(fit, assetType, all) && AllFit(fit, rows, assets.rows)
    modifies assets`rows, clock
    ensures clock.Valid() && Ready(assets.rows, clock.last, clear)
    ensures error.Some? ==>
      StopsAt(known, rows, assets.rows, all, n, clear) && error.value == Unresolved(Uuid(all[n]))
    ensures error.None? ==> Filling(known, rows, assets.rows, all, n + 1, created)
    ensures AllFit(fit, rows, assets.rows)
  {
    ghost var rows', last := assets.rows, clock.last;
    var uuid := Uuid(asset);
    var found := Resolve(assets, uuid, clock.last);
    if found.Ok? {
      FillingSkips(known, rows, rows', all, n, before);
      return before, None;
    }
    var upserted := Upsert(assets, clock, uuid, Derived(asset, assetType), user);
    if uuid != "" {
      CreatedKeepsReady(
        rows', assets.rows, uuid, Derived(asset, assetType), last, clock.last, clear);
      CreatedFits(fit, assetType, rows, rows', assets.rows, all, n, clock.last);
      FillingCreates(
        known, assets.fts, rows, rows', assets.rows, all, n, before, Derived(asset, assetType),
        last, clock.last, clear);
    } else {
      LaterKeepsReady(rows', last, clock.last, clear);
    }
    if upserted.Err? {
      return before, Some(upserted.error);
    }
    created, error := before + 1, None;
  }

  method FillPage(
    assets: Repository, clock: Clock, page: seq<AssetRow>, assetType: string, user: string,
    before: nat, ghost known: Knowledge, ghost fit: AssetRow -> bool, ghost rows: seq<AssetRow>,
    ghost all: seq<AssetRow>, ghost n: nat, ghost end: nat, ghost clear: bool)
    returns (created: nat, error: Option<ApiError>, ghost at: nat)
    requires clock.Valid() && Ready(assets.rows, clock.last, clear) && Tells(known, assets.fts)
    requires n <= end <= |all| && page == all[n..end]
    requires Fits(fit, assetType, all) && AllFit(fit, rows, assets.rows)
    requires Filling(known, rows, assets.rows, all, n, before)
    modifies assets`rows, clock
    ensures clock.Valid() && Ready(assets.rows, clock.last, clear)
    ensures error.Some? ==> at < |all| && error.value == Unresolved(Uuid(all[at]))
    ensures error.Some? ==> StopsAt(known, rows, assets.rows, all, at, clear)
    ensures error.None? ==> at == end && Filling(known, rows, assets.rows, all, at, created)
    ensures AllFit(fit, rows, assets.rows)
  {
    created := before;
    at := n;
    for k := 0 to |page|
      invariant clock.Valid() && Ready(assets.rows, clock.last, clear)
      invariant at == n + k && Filling(known, rows, assets.rows, all, at, created)
      invariant AllFit(fit, rows, assets.rows)
    {
      assert page[k] == all[at];
      created, error := FillOne(
        assets, clock, page[k], assetType, user, created, known, fit, rows, all, at, clear);
      if error.Some? {
        return;
      }
      at := at + 1;
    }
    error := None;
  }

  ghost predicate Walk(fts: FullText, assetType: string, rows: seq<AssetRow>, all: seq<AssetRow>) {
    && WellFormed(rows) && (assetType == "user" || assetType == "agent")
    && all == Answer(rows, SEARCH_SCAN, Walked(fts, assetType))
  }

  lemma WalkIsOfType(fts: FullText, assetType: string, rows: seq<AssetRow>, all: seq<AssetRow>)
    requires Walk(fts, assetType, rows, all)
    ensures assetType != ENTRY_TYPE
    ensures forall a :: a in all ==> OfType(assetType, a) && a in rows
  {
    assert "user"[0] == 'u' && "agent"[0] == 'a' && ENTRY_TYPE[0] == 'd';
    AnswerIsSorted(rows, SEARCH_SCAN, Walked(fts, assetType), all);
    assert Typed(assetType).tags[0] == ("type", assetType);
  }

  /** One turn of the loop. */
  method FillNextPage(
    assets: Repository, clock: Clock, assetType: string, cursor: Option<string>, user: string,
    before: nat, ghost known: Knowledge, ghost fit: AssetRow -> bool, ghost rows: seq<AssetRow>,
    ghost all: seq<AssetRow>, ghost i: nat, ghost clear: bool)
    returns (next: Option<string>, created: nat, error: Option<ApiError>, ghost i': nat)
    requires clock.Valid() && Ready(assets.rows, clock.last, clear) && Tells(known, assets.fts)
    requires Walk(assets.fts, assetType, rows, all) && i <= |all| && cursor == WalkCursor(all, i)
    requires Filling(known, rows, assets.rows, all, i, before)
    requires Fits(fit, assetType, all) && AllFit(fit, rows, assets.rows)
    modifies assets`rows, clock
    ensures clock.Valid() && Ready(assets.rows, clock.last, clear)
    ensures AllFit(fit, rows, assets.rows)
    ensures error.Some? ==> i' < |all| && error.value == Unresolved(Uuid(all[i']))
    ensures error.Some? ==> StopsAt(known, rows, assets.rows, all, i', clear)
    ensures error.None? ==> Filling(known, rows, assets.rows, all, i', created)
    ensures error.None? ==>
      if next.Some? then i < i' <= |all| && next == WalkCursor(all, i') else i' == |all|
  {
    var page;
    WalkIsOfType(assets.fts, assetType, rows, all);
    page, next := assets.Search(Typed(assetType), BACKFILL_PAGE, cursor, clock.last);
    ghost var end := PageUndisturbed(
      assets.fts, assetType, rows, assets.rows, all, i, clock.last, page, next);
    created, error, i' := FillPage(
      assets, clock, page, assetType, user, before, known, fit, rows, all, i, end, clear);
  }

  /** The walk over one asset type. */
  method BackfillType(
    assets: Repository, clock: Clock, assetType: string, user: string, ghost known: Knowledge,
    ghost fit: AssetRow -> bool, ghost clear: bool)
    returns (created: nat, error: Option<ApiError>, ghost all: seq<AssetRow>, ghost i: nat)
    requires clock.Valid() && Ready(assets.rows, clock.last, clear) && Tells(known, assets.fts)
    requires assetType == "user" || assetType == "agent"
    requires Fits(fit, assetType, Answer(assets.rows, SEARCH_SCAN, Walked(assets.fts, assetType)))
    modifies assets`rows, clock
    ensures clock.Valid() && Ready(assets.rows, clock.last, clear)
    ensures Walk(assets.fts, assetType, old(assets.rows), all) && (error.Some? <==> i < |all|)
    ensures error.Some? ==> error.value == Unresolved(Uuid(all[i]))
    ensures StopsAt(known, old(assets.rows), assets.rows, all, i, clear)
    ensures AllFit(fit, old(assets.rows), assets.rows)
    ensures error.None? ==> Filling(known, old(assets.rows), assets.rows, all, |all|, created)
  {
    created, error, i := 0, None, 0;
    var cursor := None;
    ghost var rows := assets.rows;
    all := Answer(rows, SEARCH_SCAN, Walked(assets.fts, assetType));
    while true
      invariant clock.Valid() && Ready(assets.rows, clock.last, clear)
      invariant Filling(known, rows, assets.rows, all, i, created) && cursor == WalkCursor(all, i)
      invariant AllFit(fit, rows, assets.rows)
      decreases |all| - i
    {
      var next;
      next, created, error, i := FillNextPage(
        assets, clock, assetType, cursor, user, created, known, fit, rows, all, i, clear);
      if error.Some? {
        return;
      }
      if next.None? {
        break;
      }
      cursor := next;
    }
  }

  // ---------- The backfill ----------

  /** Users first, then agents. */
  function WholeWalk(fts: FullText, rows: seq<AssetRow>): seq<AssetRow> {
    Answer(rows, SEARCH_SCAN, Walked(fts, "user")) + Answer(rows, SEARCH_SCAN, Walked(fts, "agent"))
  }

  predicate IsWalked(fts: FullText, r: AssetRow) {
    Walked(fts, "user")(r) || Walked(fts, "agent")(r)
  }

  lemma WholeWalkMembers(fts: FullText, rows: seq<AssetRow>, r: AssetRow)
    requires WellFormed(rows)
    ensures r in WholeWalk(fts, rows) <==> r in rows && IsWalked(fts, r)
  {
    var users := Answer(rows, SEARCH_SCAN, Walked(fts, "user"));
    var agents := Answer(rows, SEARCH_SCAN, Walked(fts, "agent"));
    AnswerIsSorted(rows, SEARCH_SCAN, Walked(fts, "user"), users);
    AnswerIsSorted(rows, SEARCH_SCAN, Walked(fts, "agent"), agents);
    assert r in users + agents <==> r in users || r in agents;
  }

  /** What the first walk added, the second does not find. */
  lemma AgentsAsBefore(
    fts: FullText, rows: seq<AssetRow>, rows': seq<AssetRow>, users: seq<AssetRow>,
    agents: seq<AssetRow>)
    requires Walk(fts, "user", rows, users) && Walk(fts, "agent", rows', agents)
    requires Extended(rows, rows')
    ensures WholeWalk(fts, rows) == users + agents
  {
    NoneWalked(fts, "agent", Walked(fts, "agent"), rows, rows');
  }

  /** An asset of either type was there before entries were added. */
  lemma WasThere(assetType: string, rows: seq<AssetRow>, rows': seq<AssetRow>, a: AssetRow)
    requires Extended(rows, rows') && a in rows' && OfType(assetType, a)
    ensures a in rows
  {
    assert rows' == rows + rows'[|rows|..];
    if a in rows'[|rows|..] {
      var k :| 0 <= k < |rows'| - |rows| && rows'[|rows|..][k] == a;
      EntryIsOfNeither(assetType, rows'[|rows| + k]);
    }
  }

  /** Entries made for assets of the table tell of them. */
  lemma DescriptionsFit(
    fts: FullText, assetType: string, rows: seq<AssetRow>, rows': seq<AssetRow>,
    fit: AssetRow -> bool, all: seq<AssetRow>)
    requires WellFormed(rows') && Extended(rows, rows') && (assetType == "user" || assetType == "agent")
    requires forall row :: fit(row) == DescribesOne(row, rows)
    requires all == Answer(rows', SEARCH_SCAN, Walked(fts, assetType))
    ensures Fits(fit, assetType, all)
  {
    WalkIsOfType(fts, assetType, rows', all);
    forall a, row, now | a in all && IsNewEntry(row, Uuid(a), Derived(a, assetType), now)
      ensures fit(row)
    {
      WasThere(assetType, rows, rows', a);
      NewEntryDescribes(row, a, assetType, now);
    }
  }

  lemma ExtendedTwice(rows: seq<AssetRow>, rows': seq<AssetRow>, rows'': seq<AssetRow>)
    requires Extended(rows, rows') && Extended(rows', rows'')
    ensures Extended(rows, rows'')
  {
    assert rows''[..|rows|] == rows''[..|rows'|][..|rows|];
    forall k | |rows| <= k < |rows''|
      ensures Added(rows''[k])
    {
      if k < |rows'| {
        assert rows''[..|rows'|][k] == rows'[k];
      }
    }
  }

  lemma {:induction false} HandledByFirst(users: seq<AssetRow>, agents: seq<AssetRow>, n: nat)
    requires n <= |users|
    ensures Handled(users + agents, n) == Handled(users, n)
  {
    if n > 0 {
      HandledByFirst(users, agents, n - 1);
    }
  }

  lemma {:induction false} HandledByBoth(users: seq<AssetRow>, agents: seq<AssetRow>, n: nat)
    requires n <= |agents|
    ensures Handled(users + agents, |users| + n) == Handled(users, |users|) + Handled(agents, n)
  {
    if n == 0 {
      HandledByFirst(users, agents, |users|);
    } else {
      HandledByBoth(users, agents, n - 1);
    }
  }

  lemma StopsInFirst(
    known: Knowledge, rows: seq<AssetRow>, rows': seq<AssetRow>, users: seq<AssetRow>,
    agents: seq<AssetRow>, n: nat, clear: bool)
    requires StopsAt(known, rows, rows', users, n, clear) && n < |users|
    ensures StopsAt(known, rows, rows', users + agents, n, clear)
  {
    HandledByFirst(users, agents, n);
  }

  lemma StopsInSecond(
    known: Knowledge, rows: seq<AssetRow>, rows': seq<AssetRow>, rows'': seq<AssetRow>,
    users: seq<AssetRow>, agents: seq<AssetRow>, n: nat, clear: bool)
    requires Reached(known, rows, rows', users, |users|) && StopsAt(known, rows', rows'', agents, n, clear)
    ensures StopsAt(known, rows, rows'', users + agents, |users| + n, clear)
  {
    ExtendedTwice(rows, rows', rows'');
    HandledByBoth(users, agents, n);
  }

  /** Rows are as they were where everyone on the walk resolved already. */
  lemma NothingToFill(
    known: Knowledge, rows: seq<AssetRow>, rows': seq<AssetRow>, rows'': seq<AssetRow>,
    users: seq<AssetRow>, agents: seq<AssetRow>, created: nat, more: nat)
    requires Filling(known, rows, rows', users, |users|, created)
    requires Filling(known, rows', rows'', agents, |agents|, more)
    requires Principals(users + agents) <= known(rows)
    ensures created == 0 && more == 0
  {
    NothingLeft(known(rows), known(rows'), users, agents);
  }

  lemma NothingLeft(
    known: iset<string>, known': iset<string>, users: seq<AssetRow>, agents: seq<AssetRow>)
    requires known' == known + Principals(users) && Principals(users + agents) <= known
    ensures Principals(users) <= known && Principals(agents) <= known'
  {
    HandledByBoth(users, agents, |agents|);
  }

  ghost predicate IsFirstEmpty(all: seq<AssetRow>, n: nat) {
    && n <= |all| && (forall k :: 0 <= k < n ==> Uuid(all[k]) != "")
    && (n < |all| ==> Uuid(all[n]) == "")
  }

  /** The walked assets of a table that only gained entries are those it had. */
  lemma SameWalked(fts: FullText, rows: seq<AssetRow>, rows': seq<AssetRow>, r: AssetRow)
    requires Extended(rows, rows')
    ensures r in rows' && IsWalked(fts, r) <==> r in rows && IsWalked(fts, r)
  {
    assert rows' == rows + rows'[|rows|..];
    if r in rows'[|rows|..] {
      var k :| 0 <= k < |rows'| - |rows| && rows'[|rows|..][k] == r;
      assert Added(rows'[|rows| + k]);
      AddedIsNotWalked(fts, "user", r);
      AddedIsNotWalked(fts, "agent", r);
    }
  }

  /** The backfill got as far as the `n`-th asset, through the walk if it succeeded: in a clear
      table, to the first empty principal. Exactly the principals before have come to resolve. */
  ghost predicate Ended(
    known: Knowledge, rows: seq<AssetRow>, rows': seq<AssetRow>, all: seq<AssetRow>,
    result: Result<nat>, n: nat, clear: bool)
  {
    && Extended(rows, rows') && n <= |all| && (result.Ok? <==> n == |all|)
    && (result.Ok? ==> |rows'| == |rows| + result.value)
    && (result.Err? ==> Uuid(all[n]) !in known(rows'))
    && (clear ==> IsFirstEmpty(all, n))
    && known(rows') == known(rows) + Handled(all, n)
    && (Principals(all) <= known(rows) ==> result == Ok(0) && rows' == rows)
  }

  lemma StoppedEnds(
    known: Knowledge, fts: FullText, rows: seq<AssetRow>, rows': seq<AssetRow>, all: seq<AssetRow>,
    result: Result<nat>, n: nat, clear: bool)
    requires Tells(known, fts) && StopsAt(known, rows, rows', all, n, clear)
    requires result.Ok? <==> n == |all|
    requires result.Ok? ==> |rows'| == |rows| + result.value
    requires result.Ok? && Principals(all) <= known(rows) ==> result.value == 0
    ensures Ended(known, rows, rows', all, result, n, clear)
  {
    forall k | 0 <= k < n
      ensures Uuid(all[k]) != ""
    {
      IsHandled(all, k, n);
      assert Uuid(all[k]) in known(rows');
      assert Resolves(rows', fts, Uuid(all[k]));
    }
    if n < |all| {
      IsHandled(all, n, |all|);
    } else if result == Ok(0) {
      assert rows' == rows'[..|rows|];
    }
  }

  lemma EndsInFirst(
    known: Knowledge, fts: FullText, rows: seq<AssetRow>, rows': seq<AssetRow>,
    users: seq<AssetRow>, result: Result<nat>, n: nat, clear: bool)
    returns (all: seq<AssetRow>)
    requires Tells(known, fts) && Walk(fts, "user", rows, users) && result.Err?
    requires StopsAt(known, rows, rows', users, n, clear) && n < |users|
    ensures all == WholeWalk(fts, rows) && Ended(known, rows, rows', all, result, n, clear)
    ensures all[n] == users[n]
  {
    var agents := Answer(rows, SEARCH_SCAN, Walked(fts, "agent"));
    all := users + agents;
    StopsInFirst(known, rows, rows', users, agents, n, clear);
    StoppedEnds(known, fts, rows, rows', all, result, n, clear);
  }

  lemma EndsInSecond(
    known: Knowledge, fts: FullText, rows: seq<AssetRow>, rows': seq<AssetRow>,
    rows'': seq<AssetRow>, users: seq<AssetRow>, agents: seq<AssetRow>, created: nat, more: nat,
    result: Result<nat>, n: nat, clear: bool)
    returns (all: seq<AssetRow>, m: nat)
    requires Tells(known, fts) && Filling(known, rows, rows', users, |users|, created)
    requires StopsAt(known, rows', rows'', agents, n, clear)
    requires n == |agents| ==> Filling(known, rows', rows'', agents, n, more)
    requires if n < |agents| then result.Err? else result == Ok(created + more)
    ensures all == users + agents && Ended(known, rows, rows'', all, result, m, clear)
    ensures n < |agents| ==> all[m] == agents[n]
  {
    all, m := users + agents, |users| + n;
    StopsInSecond(known, rows, rows', rows'', users, agents, n, clear);
    if n == |agents| && Principals(all) <= known(rows) {
      NothingToFill(known, rows, rows', rows'', users, agents, created, more);
    }
    StoppedEnds(known, fts, rows, rows'', all, result, m, clear);
  }

  lemma ExtendedStillLive(rows: seq<AssetRow>, rows': seq<AssetRow>)
    requires Extended(rows, rows')
    ensures StillLive(rows, rows')
  {
    assert forall k :: 0 <= k < |rows| ==> rows'[k] == rows'[..|rows|][k];
    RowsStillLive(rows, rows');
  }

  /** The second walk, after one over users that has made `created` entries. */
  method BackfillAgents(
    assets: Repository, clock: Clock, user: string, created: nat, ghost known: Knowledge,
    ghost fit: AssetRow -> bool, ghost clear: bool, ghost rows: seq<AssetRow>, ghost users: seq<AssetRow>)
    returns (result: Result<nat>, ghost agents: seq<AssetRow>, ghost all: seq<AssetRow>, ghost n: nat)
    requires clock.Valid() && Ready(assets.rows, clock.last, clear) && Tells(known, assets.fts)
    requires Filling(known, rows, assets.rows, users, |users|, created)
    requires Fits(fit, "agent", Answer(assets.rows, SEARCH_SCAN, Walked(assets.fts, "agent")))
    requires AllFit(fit, rows, assets.rows)
    modifies assets`rows, clock
    ensures clock.Valid() && Ready(assets.rows, clock.last, clear)
    ensures Walk(assets.fts, "agent", old(assets.rows), agents)
    ensures all == users + agents && Ended(known, rows, assets.rows, all, result, n, clear)
    ensures AllFit(fit, rows, assets.rows)
    ensures result.Err? ==> result.error == Unresolved(Uuid(all[n]))
  {
    ghost var rows', at := assets.rows, 0;
    var more, error;
    more, error, agents, at := BackfillType(assets, clock, "agent", user, known, fit, clear);
    FitTwice(fit, rows, rows', assets.rows);
    result := if error.Some? then Err(error.value) else Ok(created + more);
    all, n := EndsInSecond(
      known, assets.fts, rows, rows', assets.rows, users, agents, created, more, result, at, clear);
  }

  /** The result is the number of new entries. Where everyone resolves already it changes
      nothing: so does a second run. `known` is only a name for who resolves (there is one for
      every store, see Teller), and `clear` need not be claimed. */
  method Backfill(assets: Repository, clock: Clock, user: string, ghost known: Knowledge,
    ghost clear: bool)
    returns (result: Result<nat>, ghost all: seq<AssetRow>, ghost n: nat)
    requires clock.Valid() && Ready(assets.rows, clock.last, clear) && Tells(known, assets.fts)
    modifies assets`rows, clock
    ensures clock.Valid() && Ready(assets.rows, clock.last, clear)
    ensures StillLive(old(assets.rows), assets.rows)
    ensures all == WholeWalk(assets.fts, old(assets.rows))
    ensures Ended(known, old(assets.rows), assets.rows, all, result, n, clear)
    ensures result.Err? ==> result.error == Unresolved(Uuid(all[n]))
    ensures AllDescribe(old(assets.rows), assets.rows)
  {
    ghost var rows0 := assets.rows;
    ghost var fit := (row: AssetRow) => DescribesOne(row, rows0);
    DescriptionsFit(
      assets.fts, "user", rows0, rows0, fit, Answer(rows0, SEARCH_SCAN, Walked(assets.fts, "user")));
    var created, error, users, at := BackfillType(assets, clock, "user", user, known, fit, clear);
    ghost var rows1 := assets.rows;
    n := at;
    if error.Some? {
      result := Err(error.value);
      all := EndsInFirst(known, assets.fts, rows0, rows1, users, result, at, clear);
      ExtendedStillLive(rows0, rows1);
      return;
    }
    ghost var agents;
    DescriptionsFit(
      assets.fts, "agent", rows0, rows1, fit, Answer(rows1, SEARCH_SCAN, Walked(assets.fts, "agent")));
    result, agents, all, n := BackfillAgents(
      assets, clock, user, created, known, fit, clear, rows0, users);
    ExtendedStillLive(rows0, assets.rows);
    AgentsAsBefore(assets.fts, rows0, rows1, users, agents);
  }

  /** Every principal of a user or agent resolves that can: an empty one cannot. */
  ghost predicate EveryoneResolves(fts: FullText, rows: seq<AssetRow>) {
    forall r :: r in rows && IsWalked(fts, r) && Uuid(r) != "" ==> Resolves(rows, fts, Uuid(r))
  }

  lemma IsWalkedByType(fts: FullText, r: AssetRow)
    ensures IsWalked(fts, r) <==> OfType("user", r) || OfType("agent", r)
  {
    assert Typed("user").tags[0] == ("type", "user") && Typed("agent").tags[0] == ("type", "agent");
  }

  /** For every live user and agent with a subject, or else an id, that is not empty, the newest
      live asset tagged with it as principal is a directory entry. */
  lemma EveryoneInBrief(fts: FullText, rows: seq<AssetRow>)
    requires UniqueIds(rows)
    ensures EveryoneResolves(fts, rows) <==> forall r ::
      && r in rows && r.Live() && (r.HasTag("type", "user") || r.HasTag("type", "agent"))
      && FirstTag(r.tags, "sub").GetOr(r.id) != ""
      ==> NewestIsEntry(rows, FirstTag(r.tags, "sub").GetOr(r.id))
  {
    forall r
      ensures IsWalked(fts, r) <==> r.Live() && (r.HasTag("type", "user") || r.HasTag("type", "agent"))
      ensures Resolves(rows, fts, Uuid(r)) <==> Uuid(r) != "" && NewestIsEntry(rows, Uuid(r))
    {
      IsWalkedByType(fts, r);
      ResolvesInBrief(rows, fts, Uuid(r));
    }
  }

  lemma OnTheWalk(fts: FullText, rows: seq<AssetRow>, rows': seq<AssetRow>, v: string)
    requires WellFormed(rows) && Extended(rows, rows')
    ensures v in Principals(WholeWalk(fts, rows)) <==>
      exists r :: r in rows' && IsWalked(fts, r) && Uuid(r) == v
  {
    var all := WholeWalk(fts, rows);
    HandledMembers(all, |all|);
    if v in Principals(all) {
      var k :| 0 <= k < |all| && Uuid(all[k]) == v;
      WholeWalkMembers(fts, rows, all[k]);
      SameWalked(fts, rows, rows', all[k]);
    }
    if r :| r in rows' && IsWalked(fts, r) && Uuid(r) == v {
      SameWalked(fts, rows, rows', r);
      WholeWalkMembers(fts, rows, r);
      var k :| 0 <= k < |all| && all[k] == r;
      assert Uuid(all[k]) == v;
    }
  }

  /** What the backfill is for holds afterwards exactly if it left nobody behind: in a clear
      table, if no principal that did not resolve comes only after the first empty one. */
  lemma PromiseKeptExactly(
    known: Knowledge, fts: FullText, rows: seq<AssetRow>, rows': seq<AssetRow>,
    result: Result<nat>, n: nat, clear: bool)
    requires Tells(known, fts) && WellFormed(rows)
    requires Ended(known, rows, rows', WholeWalk(fts, rows), result, n, clear)
    ensures
      var all := WholeWalk(fts, rows);
      EveryoneResolves(fts, rows') <==> Principals(all) - iset{""} <= known(rows) + Handled(all, n)
  {
    var all := WholeWalk(fts, rows);
    forall v
      ensures v in Principals(all) <==> exists r :: r in rows' && IsWalked(fts, r) && Uuid(r) == v
    {
      OnTheWalk(fts, rows, rows', v);
    }
    forall v
      ensures v in known(rows') <==> Resolves(rows', fts, v)
    {
    }
  }

  // ---------- Tables on which the conditions fail ----------

  /** An asset that is no entry has the principal's tag, the very stamp and the greater id: the
      entry created for the principal is not found. */
  lemma OutrankedHappens(
    x: AssetRow, rows': seq<AssetRow>, fts: FullText, uuid: string, q: Request, now: Instant)
    requires now.Valid() && x.createdAt == Render(now) && x.updatedAt == Render(now)
    requires x.Live() && x.tags == [Tag(PRINCIPAL_TAG, uuid)] && uuid != ""
    requires Created([x], rows', uuid, q, now) && Lexical.Less(rows'[1].id, x.id)
    ensures WellFormed([x]) && NotBefore(now, [x])
    ensures !Resolves([x], fts, uuid) && !Resolves(rows', fts, uuid)
  {
    assert IsStamp(Render(now));
    assert x.tags[0] == Tag(PRINCIPAL_TAG, uuid) && x.HasTag(PRINCIPAL_TAG, uuid);
    IsByPrincipal(fts, uuid, x);
    BackingIsNewest([x], fts, uuid, x);
    BackingIsLive([x], fts, uuid);
    CreatedResolvesExactly([x], rows', fts, uuid, q, now);
  }

  /** A user, by its subject, with nothing else to it. */
  predicate PlainUser(a: AssetRow, sub: string) {
    a.Live() && a.tags == [Tag("type", "user"), Tag("sub", sub)]
  }

  lemma PlainUserFacts(fts: FullText, a: AssetRow, sub: string)
    requires PlainUser(a, sub)
    ensures Uuid(a) == sub && Walked(fts, "user")(a)
    ensures forall v :: !a.HasTag(PRINCIPAL_TAG, v)
  {
    assert "type"[0] == 't' && "sub"[0] == 's' && PRINCIPAL_TAG[0] == 'p';
    assert a.tags[1..] == [Tag("sub", sub)];
    assert FirstTag(a.tags, "sub") == FirstTag(a.tags[1..], "sub") == Some(sub);
    assert a.tags[0] in a.tags && a.HasTag("type", "user");
    assert Typed("user").tags[0] == ("type", "user");
  }

  lemma NobodyResolves(fts: FullText, rows: seq<AssetRow>, uuid: string)
    requires UniqueIds(rows) && forall r, v :: r in rows ==> !r.HasTag(PRINCIPAL_TAG, v)
    ensures !Resolves(rows, fts, uuid)
  {
    if Backing(rows, fts, uuid).Some? {
      BackingIsLive(rows, fts, uuid);
    }
  }

  /** The newer of two users has an empty subject: the backfill stops there, and the other
      does not resolve afterwards. */
  lemma LeftBehindHappens(
    known: Knowledge, fts: FullText, newer: AssetRow, older: AssetRow, sub: string)
    returns (all: seq<AssetRow>)
    requires Tells(known, fts) && WellFormed([newer, older]) && sub != ""
    requires PlainUser(newer, "") && PlainUser(older, sub)
    requires Lexical.Less(older.updatedAt, newer.updatedAt)
    ensures all == WholeWalk(fts, [newer, older]) && !EveryoneResolves(fts, [newer, older])
    ensures Ended(known, [newer, older], [newer, older], all, Err(BadRequest), 0, true)
  {
    var rows := [newer, older];
    PlainUserFacts(fts, newer, "");
    PlainUserFacts(fts, older, sub);
    NobodyResolves(fts, rows, sub);
    assert rows[1] == older && older in rows && IsWalked(fts, older);
    all := StartsWithNewer(fts, newer, older);
    StopsAtFirst(known, fts, rows, all);
  }

  lemma StopsAtFirst(known: Knowledge, fts: FullText, rows: seq<AssetRow>, all: seq<AssetRow>)
    requires Tells(known, fts) && all != [] && Uuid(all[0]) == ""
    ensures Ended(known, rows, rows, all, Err(BadRequest), 0, true)
  {
    assert !Resolves(rows, fts, "");
    IsHandled(all, 0, |all|);
  }

  lemma StartsWithNewer(fts: FullText, newer: AssetRow, older: AssetRow)
    returns (all: seq<AssetRow>)
    requires WellFormed([newer, older]) && Lexical.Less(older.updatedAt, newer.updatedAt)
    requires Walked(fts, "user")(newer)
    ensures all == WholeWalk(fts, [newer, older]) && all != [] && all[0] == newer
  {
    var rows := [newer, older];
    var users := Answer(rows, SEARCH_SCAN, Walked(fts, "user"));
    AnswerIsSorted(rows, SEARCH_SCAN, Walked(fts, "user"), users);
    FirstIsNewest(users, newer, older);
    all := WholeWalk(fts, rows);
  }

  lemma FirstIsNewest(all: seq<AssetRow>, newer: AssetRow, older: AssetRow)
    requires Ascending(Order(SEARCH_SCAN), all) && newer in all
    requires forall r :: r in all ==> r == newer || r == older
    requires Lexical.Less(older.updatedAt, newer.updatedAt)
    ensures all[0] == newer
  {
    var k :| 0 <= k < |all| && all[k] == newer;
    assert all[0] in all;
    if k > 0 {
      assert Order(SEARCH_SCAN)(all[0], all[k]);
      NeitherBefore(newer, all[0]);
    }
  }
}
