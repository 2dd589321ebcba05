/** The assets table: the paged queries, their cursors, and the row updates. */
module AssetRepository {
  import opened Outcomes
  import opened Models
  import opened Rfc3339
  import opened Tables
  import Lexical

  // ---------- Cursors ----------

  /** `split_once('|')`. */
  function SplitBar(s: string): Option<(string, string)> {
    if s == "" then None
    else if s[0] == '|' then Some(("", s[1..]))
    else match SplitBar(s[1..])
      case Some((a, b)) => Some(([s[0]] + a, b))
      case None => None
  }

  /** The column a query is ordered by, and the direction. */
  datatype Scan = Scan(byCreated: bool, descending: bool)

  const SEARCH_SCAN := Scan(false, true)

  function Column(scan: Scan, r: AssetRow): string {
    if scan.byCreated then r.createdAt else r.updatedAt
  }

  /** Does the key (s, a) precede (t, b) in the scan's direction? */
  predicate KeyBefore(descending: bool, s: string, a: string, t: string, b: string) {
    if descending then Lexical.Less(t, s) || (s == t && Lexical.Less(b, a))
    else Lexical.Less(s, t) || (s == t && Lexical.Less(a, b))
  }

  predicate RowBefore(scan: Scan, x: AssetRow, y: AssetRow) {
    KeyBefore(scan.descending, Column(scan, x), x.id, Column(scan, y), y.id)
  }

  /** The WHERE clause a cursor adds; a cursor without a bar compares ids only. */
  predicate PastCursor(scan: Scan, cursor: Option<string>, r: AssetRow) {
    match cursor
    case None => true
    case Some(c) =>
      match SplitBar(c)
      case Some((date, id)) => KeyBefore(scan.descending, date, id, Column(scan, r), r.id)
      case None => if scan.descending then Lexical.Less(r.id, c) else Lexical.Less(c, r.id)
  }

  /** A timestamp column read into an instant and printed again; an unreadable one becomes
      the current time. */
  function Reprint(s: string, now: Instant): string {
    match Parse(s)
    case Some(i) => Render(i)
    case None => Render(now)
  }

  function CursorOf(scan: Scan, r: AssetRow, now: Instant): string {
    Reprint(Column(scan, r), now) + (['|'] + r.id)
  }

  // ---------- Queries ----------

  function Order(scan: Scan): (AssetRow, AssetRow) -> bool {
    (x, y) => RowBefore(scan, x, y)
  }

  /** The whole answer to a query, in order: what its pages should add up to. */
  function Answer(rows: seq<AssetRow>, scan: Scan, wanted: AssetRow -> bool): seq<AssetRow> {
    Sort(Order(scan), Filter(wanted, rows))
  }

  /** SELECT ... WHERE wanted AND past the cursor ORDER BY ... LIMIT. */
  function Select(
    rows: seq<AssetRow>, scan: Scan, wanted: AssetRow -> bool, cursor: Option<string>, limit: nat)
    : seq<AssetRow>
  {
    Take(limit, Answer(rows, scan, (r: AssetRow) => wanted(r) && PastCursor(scan, cursor, r)))
  }

  /** One page and the cursor of the next: one row more than the limit is fetched to see
      whether there is a next page. */
  function Page(
    rows: seq<AssetRow>, scan: Scan, wanted: AssetRow -> bool, limit: nat,
    cursor: Option<string>, now: Instant)
    : (seq<AssetRow>, Option<string>)
    requires limit >= 1
  {
    Trim(Select(rows, scan, wanted, cursor, limit + 1), limit, Mark(scan, now))
  }

  function Mark(scan: Scan, now: Instant): AssetRow -> string {
    r => CursorOf(scan, r, now)
  }

  datatype Query = Query(text: Option<string>, tags: seq<(string, string)>)

  /** Full-text search is SQLite's: how a user's text is reduced to a MATCH expression, and
      which rows an expression matches. */
  datatype FullText = FullText(reduce: string -> string, matches: (string, AssetRow) -> bool)

  function MatchExpression(fts: FullText, text: Option<string>): Option<string> {
    if text.None? || text.value == "" || fts.reduce(text.value) == "" then None
    else Some(fts.reduce(text.value))
  }

  predicate Satisfies(fts: FullText, q: Query, r: AssetRow) {
    && r.Live()
    && (match MatchExpression(fts, q.text) case Some(m) => fts.matches(m, r) case None => true)
    && forall i :: 0 <= i < |q.tags| ==> r.HasTag(q.tags[i].0, q.tags[i].1)
  }

  /** The services look for assets of a type by their `type` tag. */
  function Typed(assetType: string): Query {
    Query(None, [("type", assetType)])
  }

  function Wanted(fts: FullText, q: Query): AssetRow -> bool {
    r => Satisfies(fts, q, r)
  }

  predicate Listed(assetType: Option<string>, r: AssetRow) {
    r.Live() && (assetType.Some? ==> r.HasTag("asset_type", assetType.value))
  }

  function ListedBy(assetType: Option<string>): AssetRow -> bool {
    r => Listed(assetType, r)
  }

  function LowerAscii(s: string): (t: string)
    ensures |t| == |s|
    ensures forall k :: 0 <= k < |s| ==>
      t[k] == if 'A' <= s[k] <= 'Z' then (s[k] as int + 32) as char else s[k]
  {
    if s == "" then ""
    else [if 'A' <= s[0] <= 'Z' then (s[0] as int + 32) as char else s[0]] + LowerAscii(s[1..])
  }

  /** The scan that the `sort_by` and `order` parameters of a listing ask for. */
  function ListScan(sortBy: string, order: string): Scan {
    Scan(sortBy == "created_at", LowerAscii(order) != "asc")
  }

  /** The projection of the compact search: no content, no metadata. */
  function Compact(r: AssetRow): AssetRow {
    r.(content := None, metadata := map[])
  }

  /** The same rows without content and metadata. */
  ghost predicate AreCompact(page: seq<AssetRow>, full: seq<AssetRow>) {
    && |page| == |full|
    && forall i :: 0 <= i < |page| ==> page[i] == full[i].(content := None, metadata := map[])
  }

  lemma CompactInBrief(full: seq<AssetRow>)
    ensures AreCompact(Map(Compact, full), full)
  {
  }

  /** The live row with an id. */
  function FindLive(rows: seq<AssetRow>, id: string): Option<AssetRow> {
    if rows == [] then None
    else if rows[0].id == id && rows[0].Live() then Some(rows[0])
    else FindLive(rows[1..], id)
  }

  /** UPDATE: the rows with the id are replaced by `f` of them. */
  function UpdateRow(rows: seq<AssetRow>, id: string, f: AssetRow -> AssetRow): seq<AssetRow> {
    Map((r: AssetRow) => if r.id == id then f(r) else r, rows)
  }

  function WithTag(tag: Tag, now: Instant): AssetRow -> AssetRow {
    (r: AssetRow) => r.(tags := r.tags + [tag], updatedAt := Render(now))
  }

  function Deleted(now: Instant): AssetRow -> AssetRow {
    (r: AssetRow) => if r.Live() then r.(deletedAt := Some(Render(now))) else r
  }

  function Edited(title: string, metadata: map<string, Json>, now: Instant): AssetRow -> AssetRow {
    (r: AssetRow) =>
      if r.Live() then r.(title := title, metadata := metadata, updatedAt := Render(now)) else r
  }

  function WithContext(context: AuthContext, now: Instant): AssetRow -> AssetRow {
    (r: AssetRow) => if r.Live() then r.(context := Some(context), updatedAt := Render(now)) else r
  }

  /** No live asset is lost. */
  ghost predicate StillLive(rows: seq<AssetRow>, rows': seq<AssetRow>) {
    forall id :: FindLive(rows, id).Some? ==> FindLive(rows', id).Some?
  }

  class Repository {
    var rows: seq<AssetRow>
    const fts: FullText

    constructor (fts: FullText)
      ensures rows == [] && this.fts == fts
    {
      this.fts := fts;
      rows := [];
    }

    method GetById(id: string) returns (found: Option<AssetRow>)
      ensures found == FindLive(rows, id)
    {
      found := FindLive(rows, id);
    }

    /** Soft-deleted rows count as existing. */
    method Exists(id: string) returns (found: bool)
      ensures found <==> exists r :: r in rows && r.id == id
    {
      found := exists r :: r in rows && r.id == id;
    }

    method Insert(row: AssetRow)
      modifies this`rows
      ensures rows == old(rows) + [row]
      ensures StillLive(old(rows), rows)
    {
      RowsStillLive(rows, rows + [row]);
      rows := rows + [row];
    }

    method SoftDelete(id: string, now: Instant) returns (done: bool)
      modifies this`rows
      ensures done <==> FindLive(old(rows), id).Some?
      ensures rows == UpdateRow(old(rows), id, Deleted(now))
    {
      done := FindLive(rows, id).Some?;
      rows := UpdateRow(rows, id, Deleted(now));
    }

    method AddTag(id: string, tag: Tag, now: Instant) returns (done: bool)
      modifies this`rows
      ensures done <==> FindLive(old(rows), id).Some?
      ensures rows == if done then UpdateRow(old(rows), id, WithTag(tag, now)) else old(rows)
      ensures StillLive(old(rows), rows)
    {
      done := FindLive(rows, id).Some?;
      if done {
        UpdateStillLive(rows, id, WithTag(tag, now));
        rows := UpdateRow(rows, id, WithTag(tag, now));
      }
    }

    /** Sets the title and replaces the metadata. */
    method Update(id: string, title: string, metadata: map<string, Json>, now: Instant)
      returns (done: bool)
      modifies this`rows
      ensures done <==> FindLive(old(rows), id).Some?
      ensures rows ==
        if done then UpdateRow(old(rows), id, Edited(title, metadata, now)) else old(rows)
      ensures StillLive(old(rows), rows)
    {
      done := FindLive(rows, id).Some?;
      if done {
        UpdateStillLive(rows, id, Edited(title, metadata, now));
        rows := UpdateRow(rows, id, Edited(title, metadata, now));
      }
    }

    method UpdateAuthContext(id: string, context: AuthContext, now: Instant) returns (done: bool)
      modifies this`rows
      ensures done <==> FindLive(old(rows), id).Some?
      ensures rows == UpdateRow(old(rows), id, WithContext(context, now))
      ensures StillLive(old(rows), rows)
    {
      UpdateStillLive(rows, id, WithContext(context, now));
      done := FindLive(rows, id).Some?;
      rows := UpdateRow(rows, id, WithContext(context, now));
    }

    method List(
      limit: nat, cursor: Option<string>, assetType: Option<string>, sortBy: string, order: string,
      now: Instant)
      returns (page: seq<AssetRow>, next: Option<string>)
      requires limit >= 1
      ensures (page, next) ==
        Page(rows, ListScan(sortBy, order), ListedBy(assetType), limit, cursor, now)
    {
      var scan := ListScan(sortBy, order);
      var fetched := Select(rows, scan, ListedBy(assetType), cursor, limit + 1);
      next := if |fetched| > limit then Some(CursorOf(scan, fetched[limit - 1], now)) else None;
      page := if |fetched| > limit then fetched[..limit] else fetched;
    }

    method Search(q: Query, limit: nat, cursor: Option<string>, now: Instant)
      returns (page: seq<AssetRow>, next: Option<string>)
      requires limit >= 1
      ensures (page, next) == Page(rows, SEARCH_SCAN, Wanted(fts, q), limit, cursor, now)
    {
      var fetched := Select(rows, SEARCH_SCAN, Wanted(fts, q), cursor, limit + 1);
      next := if |fetched| > limit then Some(CursorOf(SEARCH_SCAN, fetched[limit - 1], now)) else None;
      page := if |fetched| > limit then fetched[..limit] else fetched;
    }

    /** The same query without the contents. */
    method SearchCompact(q: Query, limit: nat, cursor: Option<string>, now: Instant)
      returns (page: seq<AssetRow>, next: Option<string>)
      requires limit >= 1
      ensures
        var (full, fullNext) := Page(rows, SEARCH_SCAN, Wanted(fts, q), limit, cursor, now);
        page == Map(Compact, full) && next == fullNext && AreCompact(page, full)
    {
      var fetched := Map(Compact, Select(rows, SEARCH_SCAN, Wanted(fts, q), cursor, limit + 1));
      next := if |fetched| > limit then Some(CursorOf(SEARCH_SCAN, fetched[limit - 1], now)) else None;
      page := if |fetched| > limit then fetched[..limit] else fetched;
      CompactInBrief(Page(rows, SEARCH_SCAN, Wanted(fts, q), limit, cursor, now).0);
    }

    method CountSearch(q: Query) returns (n: nat)
      ensures n == |Answer(rows, SEARCH_SCAN, Wanted(fts, q))|
    {
      n := |Filter(Wanted(fts, q), rows)|;
    }

    method CountList(assetType: Option<string>) returns (n: nat)
      ensures forall scan :: n == |Answer(rows, scan, ListedBy(assetType))|
    {
      n := |Filter(ListedBy(assetType), rows)|;
    }

    /** The bodies of the live rows with these ids; ids without one are absent. */
    method GetContents(ids: seq<string>) returns (out: map<string, string>)
      requires UniqueIds(rows)
      ensures forall r :: r in rows && r.Live() && r.id in ids && r.content.Some? ==>
        r.id in out && out[r.id] == r.content.value
      ensures forall id :: id in out ==>
        exists r :: r in rows && r.Live() && r.id == id && id in ids && r.content.Some?
    {
      out := map[];
      if ids == [] {
        return;
      }
      var found := Filter((r: AssetRow) => r.id in ids && r.Live(), rows);
      FilterMembers((r: AssetRow) => r.id in ids && r.Live(), rows);
      for i := 0 to |found|
        invariant forall k :: 0 <= k < i && found[k].content.Some? ==>
          found[k].id in out && out[found[k].id] == found[k].content.value
        invariant forall id :: id in out ==>
          exists r :: r in rows && r.Live() && r.id == id && id in ids && r.content.Some?
      {
        assert found[i] in found;
        if found[i].content.Some? {
          forall k | 0 <= k < i && found[k].id == found[i].id
            ensures found[k] == found[i]
          {
            assert found[k] in found;
            SameIdSameRow(rows, found[k], found[i]);
          }
          out := out[found[i].id := found[i].content.value];
        }
      }
    }
  }

  lemma SameIdSameRow(rows: seq<AssetRow>, x: AssetRow, y: AssetRow)
    requires UniqueIds(rows) && x in rows && y in rows && x.id == y.id
    ensures x == y
  {
  }

  // ---------- Finding rows after an update ----------

  lemma {:induction false} FindLiveSome(rows: seq<AssetRow>, id: string)
    ensures FindLive(rows, id).Some? <==> exists r :: r in rows && r.id == id && r.Live()
    ensures FindLive(rows, id).Some? ==>
      FindLive(rows, id).value in rows && FindLive(rows, id).value.id == id && FindLive(rows, id).value.Live()
  {
    if rows != [] {
      assert rows == [rows[0]] + rows[1..];
      FindLiveSome(rows[1..], id);
    }
  }

  /** A table whose rows keep their ids, and stay live if they are, loses no live asset. */
  lemma RowsStillLive(rows: seq<AssetRow>, rows': seq<AssetRow>)
    requires |rows| <= |rows'|
    requires forall k :: 0 <= k < |rows| ==>
      rows'[k].id == rows[k].id && (rows[k].Live() ==> rows'[k].Live())
    ensures StillLive(rows, rows')
  {
    forall id | FindLive(rows, id).Some?
      ensures FindLive(rows', id).Some?
    {
      FindLiveSome(rows, id);
      FindLiveSome(rows', id);
      var r :| r in rows && r.id == id && r.Live();
      var k :| 0 <= k < |rows| && rows[k] == r;
      assert rows'[k] in rows';
    }
  }

  lemma UpdateStillLive(rows: seq<AssetRow>, id: string, f: AssetRow -> AssetRow)
    requires forall r :: f(r).id == r.id && (r.Live() ==> f(r).Live())
    ensures StillLive(rows, UpdateRow(rows, id, f))
  {
    RowsStillLive(rows, UpdateRow(rows, id, f));
  }

  /** After an update, lookup by id finds the updated row, unless that is no longer live, and
      for every other id what it found before. */
  lemma {:induction false} UpdatedIsFound(
    rows: seq<AssetRow>, id: string, f: AssetRow -> AssetRow, other: string)
    requires UniqueIds(rows) && forall r :: f(r).id == r.id && (f(r).Live() ==> r.Live())
    ensures FindLive(UpdateRow(rows, id, f), other) ==
      if other == id && FindLive(rows, id).Some? then
        if f(FindLive(rows, id).value).Live() then Some(f(FindLive(rows, id).value)) else None
      else FindLive(rows, other)
  {
    if rows != [] {
      var rest := rows[1..];
      assert forall i :: 0 <= i < |rest| ==> rest[i] == rows[i + 1];
      UpdatedIsFound(rest, id, f, other);
      var g := (r: AssetRow) => if r.id == id then f(r) else r;
      assert UpdateRow(rows, id, f) == [g(rows[0])] + UpdateRow(rest, id, f);
      assert UpdateRow(rows, id, f)[1..] == UpdateRow(rest, id, f);
      FindLiveSome(rest, rows[0].id);
    }
  }

  /** Tagging: the asset is found with its tags and the new one, and a new stamp; every other
      asset is found as it was. */
  lemma TaggedIsFound(rows: seq<AssetRow>, id: string, tag: Tag, now: Instant, other: string)
    requires UniqueIds(rows) && FindLive(rows, id).Some?
    ensures
      var rows' := UpdateRow(rows, id, WithTag(tag, now));
      && FindLive(rows', id).Some?
      && FindLive(rows', id).value == FindLive(rows, id).value.(
        tags := FindLive(rows, id).value.tags + [tag], updatedAt := Render(now))
      && FindLive(rows', id).value.HasTag(tag.category, tag.value)
      && (other != id ==> FindLive(rows', other) == FindLive(rows, other))
  {
    UpdatedIsFound(rows, id, WithTag(tag, now), id);
    UpdatedIsFound(rows, id, WithTag(tag, now), other);
    FindLiveSome(rows, id);
    var tags := FindLive(rows, id).value.tags + [tag];
    assert tags[|tags| - 1] == tag;
  }

  /** Editing: the asset is found with the new title and metadata and a new stamp; every other
      asset is found as it was. */
  lemma EditedIsFound(
    rows: seq<AssetRow>, id: string, title: string, metadata: map<string, Json>, now: Instant,
    other: string)
    requires UniqueIds(rows) && FindLive(rows, id).Some?
    ensures
      var rows' := UpdateRow(rows, id, Edited(title, metadata, now));
      && FindLive(rows', id) == Some(FindLive(rows, id).value.(
        title := title, metadata := metadata, updatedAt := Render(now)))
      && (other != id ==> FindLive(rows', other) == FindLive(rows, other))
  {
    UpdatedIsFound(rows, id, Edited(title, metadata, now), id);
    UpdatedIsFound(rows, id, Edited(title, metadata, now), other);
    FindLiveSome(rows, id);
  }

  lemma {:induction false} FindLiveFinds(rows: seq<AssetRow>, k: nat)
    requires UniqueIds(rows) && k < |rows| && rows[k].Live()
    ensures FindLive(rows, rows[k].id) == Some(rows[k])
  {
    if k > 0 {
      assert rows[0].id != rows[k].id;
      assert rows[1..][k - 1] == rows[k];
      assert forall i :: 1 <= i < |rows| ==> rows[1..][i - 1] == rows[i];
      FindLiveFinds(rows[1..], k - 1);
    }
  }
}
