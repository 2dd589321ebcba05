/** Keyset pagination over the assets table is exact: whatever the filter, the column and
    the direction, following the cursors visits every row of the answer once, in order. */
module Pagination {
  import opened Outcomes
  import opened Models
  import opened Rfc3339
  import opened Tables
  import opened AssetRepository
  import Lexical

  // ---------- The key order ----------

  lemma KeyTransitive(d: bool, s: string, a: string, t: string, b: string, u: string, c: string)
    requires KeyBefore(d, s, a, t, b) && KeyBefore(d, t, b, u, c)
    ensures KeyBefore(d, s, a, u, c)
  {
    if d {
      AscendingKeyTransitive(u, c, t, b, s, a);
    } else {
      AscendingKeyTransitive(s, a, t, b, u, c);
    }
  }

  lemma AscendingKeyTransitive(s: string, a: string, t: string, b: string, u: string, c: string)
    requires KeyBefore(false, s, a, t, b) && KeyBefore(false, t, b, u, c)
    ensures KeyBefore(false, s, a, u, c)
  {
    if Lexical.Less(s, t) && Lexical.Less(t, u) {
      Lexical.Transitive(s, t, u);
    } else if s == t && t == u {
      Lexical.Transitive(a, b, c);
    }
  }

  lemma KeyTotal(d: bool, s: string, a: string, t: string, b: string)
    ensures KeyBefore(d, s, a, t, b) || KeyBefore(d, t, b, s, a) || (s == t && a == b)
    ensures !(KeyBefore(d, s, a, t, b) && KeyBefore(d, t, b, s, a))
  {
    Lexical.Total(s, t);
    Lexical.Total(a, b);
    if KeyBefore(d, s, a, t, b) && KeyBefore(d, t, b, s, a) {
      KeyTransitive(d, s, a, t, b, s, a);
      Lexical.Irreflexive(s);
      Lexical.Irreflexive(a);
    }
  }

  function RowSet(rows: seq<AssetRow>): set<AssetRow> {
    set r | r in rows
  }

  lemma RowsAreOrdered(rows: seq<AssetRow>, scan: Scan)
    requires UniqueIds(rows)
    ensures Orders(Order(scan), RowSet(rows)) && Within(rows, RowSet(rows)) && NoDuplicates(rows)
  {
    forall x, y | x in rows && y in rows
      ensures !Order(scan)(x, x)
      ensures x != y ==> Order(scan)(x, y) || Order(scan)(y, x)
    {
      KeyTotal(scan.descending, Column(scan, x), x.id, Column(scan, y), y.id);
      KeyTotal(scan.descending, Column(scan, x), x.id, Column(scan, x), x.id);
    }
    forall x, y, z | Order(scan)(x, y) && Order(scan)(y, z)
      ensures Order(scan)(x, z)
    {
      KeyTransitive(
        scan.descending, Column(scan, x), x.id, Column(scan, y), y.id, Column(scan, z), z.id);
    }
  }

  /** The answer lists exactly the wanted rows, in strict key order. */
  lemma AnswerIsSorted(
    rows: seq<AssetRow>, scan: Scan, wanted: AssetRow -> bool, all: seq<AssetRow>)
    requires UniqueIds(rows) && all == Answer(rows, scan, wanted)
    ensures Ascending(Order(scan), all) && Within(all, RowSet(rows))
    ensures forall r :: r in all <==> r in rows && wanted(r)
  {
    RowsAreOrdered(rows, scan);
    SortedFilter(Order(scan), wanted, rows, RowSet(rows));
  }

  // ---------- Cursors survive printing ----------

  lemma {:induction false} SplitAtBar(date: string, id: string)
    requires '|' !in date
    ensures SplitBar(date + (['|'] + id)) == Some((date, id))
  {
    if date == "" {
      assert date + (['|'] + id) == ['|'] + id;
    } else {
      assert (date + (['|'] + id))[1..] == date[1..] + (['|'] + id);
      SplitAtBar(date[1..], id);
      assert date[0] in date && date == [date[0]] + date[1..];
    }
  }

  lemma RenderHasNoBar(i: Instant)
    ensures '|' !in Render(i)
  {
    assert '|' !in Tail(i.nanos);
    assert '|' !in RenderTime(i);
  }

  /** A stored timestamp is read and printed back to the same string. */
  lemma ReprintIsIdentity(s: string, now: Instant)
    requires IsStamp(s)
    ensures Reprint(s, now) == s && '|' !in s
  {
    var i: Instant :| i.Valid() && s == Render(i);
    ParseAfterRender(i);
    RenderHasNoBar(i);
  }

  /** The rows past a row's cursor are the rows after it. */
  lemma CursorMarksRow(scan: Scan, r: AssetRow, x: AssetRow, now: Instant)
    requires IsStamp(Column(scan, r))
    ensures PastCursor(scan, Some(CursorOf(scan, r, now)), x) <==> RowBefore(scan, r, x)
  {
    ReprintIsIdentity(Column(scan, r), now);
    SplitAtBar(Column(scan, r), r.id);
  }

  /** Past the `i`-th cursor are the rows after the `i`-th row. */
  lemma PastIsAfter(scan: Scan, all: seq<AssetRow>, i: nat, x: AssetRow, now: Instant)
    requires 0 < i <= |all| && IsStamp(Column(scan, all[i - 1]))
    ensures PastCursor(scan, Marks(all, Mark(scan, now))(i), x) <==> RowBefore(scan, all[i - 1], x)
  {
    CursorMarksRow(scan, all[i - 1], x, now);
  }

  // ---------- Pages ----------

  lemma AnswerPastCursor(
    rows: seq<AssetRow>, scan: Scan, wanted: AssetRow -> bool, i: nat, now: Instant,
    all: seq<AssetRow>)
    requires WellFormed(rows) && all == Answer(rows, scan, wanted) && i <= |all|
    ensures
      var cursor := Marks(all, Mark(scan, now))(i);
      Answer(rows, scan, (r: AssetRow) => wanted(r) && PastCursor(scan, cursor, r)) == all[i..]
  {
    var cursor := Marks(all, Mark(scan, now))(i);
    RowsAreOrdered(rows, scan);
    AnswerIsSorted(rows, scan, wanted, all);
    if i > 0 {
      assert all[i - 1] in all;
      forall x
        ensures PastCursor(scan, cursor, x) <==> RowBefore(scan, all[i - 1], x)
      {
        PastIsAfter(scan, all, i, x, now);
      }
    }
    SortAfter(
      Order(scan), wanted, (r: AssetRow) => wanted(r) && PastCursor(scan, cursor, r), rows, i,
      RowSet(rows));
  }

  /** From the cursor after the `i`-th row, a page is the next `limit` rows, and its cursor is
      the one after them, if any rows are left. */
  lemma PageIsNext(
    rows: seq<AssetRow>, scan: Scan, wanted: AssetRow -> bool, limit: nat, i: nat, now: Instant,
    all: seq<AssetRow>)
    requires WellFormed(rows) && limit >= 1
    requires all == Answer(rows, scan, wanted) && i <= |all|
    ensures Page(rows, scan, wanted, limit, Marks(all, Mark(scan, now))(i), now)
      == NextPage(Marks(all, Mark(scan, now)), all, limit, i)
  {
    AnswerPastCursor(rows, scan, wanted, i, now, all);
    var fetched := Select(rows, scan, wanted, Marks(all, Mark(scan, now))(i), limit + 1);
    TrimIsNext(fetched, all, limit, i, Mark(scan, now));
  }

  /** A page as a function of the cursor the client sends. */
  function Fetch(
    rows: seq<AssetRow>, scan: Scan, wanted: AssetRow -> bool, limit: nat, now: Instant)
    : Option<string> -> (seq<AssetRow>, Option<string>)
    requires limit >= 1
  {
    cursor => Page(rows, scan, wanted, limit, cursor, now)
  }

  lemma FetchPagesThrough(
    rows: seq<AssetRow>, scan: Scan, wanted: AssetRow -> bool, limit: nat, now: Instant,
    all: seq<AssetRow>)
    requires WellFormed(rows) && limit >= 1 && all == Answer(rows, scan, wanted)
    ensures PagesThrough(
      Fetch(rows, scan, wanted, limit, now), Marks(all, Mark(scan, now)), all, limit)
  {
    forall i: nat | i <= |all|
      ensures i > 0 ==> Marks(all, Mark(scan, now))(i).Some?
      ensures Fetch(rows, scan, wanted, limit, now)(Marks(all, Mark(scan, now))(i))
        == NextPage(Marks(all, Mark(scan, now)), all, limit, i)
    {
      PageIsNext(rows, scan, wanted, limit, i, now, all);
    }
  }

  /** Following the cursors from the start visits every wanted row once, in strict key order,
      in as many pages as the count asks for; there is no other way the walk can go. */
  lemma FollowingCursorsIsExact(
    rows: seq<AssetRow>, scan: Scan, wanted: AssetRow -> bool, limit: nat, now: Instant,
    pages: seq<seq<AssetRow>>, all: seq<AssetRow>)
    requires WellFormed(rows) && limit >= 1 && all == Answer(rows, scan, wanted)
    ensures Follows(Fetch(rows, scan, wanted, limit, now), None, pages) <==> pages == Pages(limit, all)
    ensures Flatten(Pages(limit, all)) == all
    ensures Ascending(Order(scan), all) && forall r :: r in all <==> r in rows && wanted(r)
    ensures |Pages(limit, all)| == if |all| == 0 then 1 else (|all| + limit - 1) / limit
  {
    AnswerIsSorted(rows, scan, wanted, all);
    FetchPagesThrough(rows, scan, wanted, limit, now, all);
    WalkIsExact(Fetch(rows, scan, wanted, limit, now), Marks(all, Mark(scan, now)), all, limit, pages);
  }

  /** `x` comes before `y` by a column, and by id where the column agrees. */
  predicate ByColumn(s: string, x: AssetRow, t: string, y: AssetRow) {
    Lexical.Less(s, t) || (s == t && Lexical.Less(x.id, y.id))
  }

  lemma WalkVisits(
    rows: seq<AssetRow>, scan: Scan, wanted: AssetRow -> bool, limit: nat, now: Instant,
    pages: seq<seq<AssetRow>>)
    requires WellFormed(rows) && limit >= 1
    requires Follows(Fetch(rows, scan, wanted, limit, now), None, pages)
    ensures NoDuplicates(Flatten(pages)) && Ascending(Order(scan), Flatten(pages))
    ensures forall r :: r in Flatten(pages) <==> r in rows && wanted(r)
  {
    var all := Answer(rows, scan, wanted);
    FollowingCursorsIsExact(rows, scan, wanted, limit, now, pages, all);
    RowsAreOrdered(rows, scan);
    AnswerIsSorted(rows, scan, wanted, all);
    AscendingNoDuplicates(Order(scan), all, RowSet(rows));
  }

  /** "asc", each letter in either case. */
  predicate AsksAscending(order: string) {
    && |order| == 3 && (order[0] == 'a' || order[0] == 'A') && (order[1] == 's' || order[1] == 'S')
    && (order[2] == 'c' || order[2] == 'C')
  }

  lemma AscendingInAnyCase(order: string)
    ensures LowerAscii(order) == "asc" <==> AsksAscending(order)
  {
    var lower := LowerAscii(order);
    if |order| == 3 {
      assert lower == [lower[0], lower[1], lower[2]];
    }
  }

  /** What a client sees that follows a listing's cursors to the end: the live assets, of the
      asked type if one is given, each once, by the asked column, ascending if so asked in
      whatever case and descending otherwise. */
  lemma ListingVisits(
    rows: seq<AssetRow>, assetType: Option<string>, sortBy: string, order: string, limit: nat,
    now: Instant, pages: seq<seq<AssetRow>>)
    requires WellFormed(rows) && limit >= 1
    requires Follows(
      Fetch(rows, ListScan(sortBy, order), ListedBy(assetType), limit, now), None, pages)
    ensures
      var all := Flatten(pages);
      var column := (r: AssetRow) => if sortBy == "created_at" then r.createdAt else r.updatedAt;
      && NoDuplicates(all)
      && (forall r :: r in all <==>
        r in rows && r.Live() && (assetType.Some? ==> r.HasTag("asset_type", assetType.value)))
      && forall i, j :: 0 <= i < j < |all| ==>
        if AsksAscending(order) then ByColumn(column(all[i]), all[i], column(all[j]), all[j])
        else ByColumn(column(all[j]), all[j], column(all[i]), all[i])
  {
    var scan, all := ListScan(sortBy, order), Flatten(pages);
    AscendingInAnyCase(order);
    WalkVisits(rows, scan, ListedBy(assetType), limit, now, pages);
    assert forall i, j :: 0 <= i < j < |all| ==> Order(scan)(all[i], all[j]);
  }

  predicate Found(fts: FullText, q: Query, r: AssetRow) {
    && r.Live()
    && (q.text.Some? && q.text.value != "" && fts.reduce(q.text.value) != "" ==>
      fts.matches(fts.reduce(q.text.value), r))
    && forall t :: t in q.tags ==> r.HasTag(t.0, t.1)
  }

  lemma FoundSatisfies(fts: FullText, q: Query, r: AssetRow)
    ensures Satisfies(fts, q, r) <==> Found(fts, q, r)
  {
    assert forall i :: 0 <= i < |q.tags| ==> q.tags[i] in q.tags;
  }

  /** The same for the search: the live assets that match the text, if it leaves an expression
      to match, and carry all the tags, newest first. */
  lemma SearchVisits(
    rows: seq<AssetRow>, fts: FullText, q: Query, limit: nat, now: Instant,
    pages: seq<seq<AssetRow>>)
    requires WellFormed(rows) && limit >= 1
    requires Follows(Fetch(rows, SEARCH_SCAN, Wanted(fts, q), limit, now), None, pages)
    ensures
      var all := Flatten(pages);
      && NoDuplicates(all)
      && (forall r :: r in all <==> r in rows && Found(fts, q, r))
      && forall i, j :: 0 <= i < j < |all| ==>
        ByColumn(all[j].updatedAt, all[j], all[i].updatedAt, all[i])
  {
    var all := Flatten(pages);
    WalkVisits(rows, SEARCH_SCAN, Wanted(fts, q), limit, now, pages);
    forall r
      ensures r in all <==> r in rows && Found(fts, q, r)
    {
      FoundSatisfies(fts, q, r);
    }
    assert forall i, j :: 0 <= i < j < |all| ==> Order(SEARCH_SCAN)(all[i], all[j]);
  }

  /** The newest of the live assets with a tag; of equally new ones that with the greatest id. */
  ghost predicate IsNewest(rows: seq<AssetRow>, category: string, value: string, r: AssetRow) {
    && r in rows && r.Live() && r.HasTag(category, value)
    && forall x :: x in rows && x != r && x.Live() && x.HasTag(category, value) ==>
      ByColumn(x.updatedAt, x, r.updatedAt, r)
  }

  lemma NewestIsUnique(
    rows: seq<AssetRow>, category: string, value: string, r: AssetRow, s: AssetRow)
    requires IsNewest(rows, category, value, r) && IsNewest(rows, category, value, s)
    ensures r == s
  {
    KeyTotal(false, r.updatedAt, r.id, s.updatedAt, s.id);
  }

  ghost predicate NoneTagged(rows: seq<AssetRow>, category: string, value: string) {
    forall r :: r in rows && r.HasTag(category, value) ==> !r.Live()
  }

  /** The answer to a search for one tag starts with the newest asset that has it. */
  lemma NewestTagged(rows: seq<AssetRow>, fts: FullText, category: string, value: string)
    requires UniqueIds(rows)
    ensures
      var all := Answer(rows, SEARCH_SCAN, Wanted(fts, Query(None, [(category, value)])));
      if all == [] then NoneTagged(rows, category, value) else IsNewest(rows, category, value, all[0])
  {
    var q := Query(None, [(category, value)]);
    var all := Answer(rows, SEARCH_SCAN, Wanted(fts, q));
    AnswerIsSorted(rows, SEARCH_SCAN, Wanted(fts, q), all);
    assert q.tags[0] == (category, value);
    assert forall r :: Satisfies(fts, q, r) <==> r.Live() && r.HasTag(category, value);
    forall x | x in rows && x.Live() && x.HasTag(category, value)
      ensures x in all && (x != all[0] ==> ByColumn(x.updatedAt, x, all[0].updatedAt, all[0]))
    {
      assert x in all;
      var k :| 0 <= k < |all| && all[k] == x;
      assert k > 0 ==> Order(SEARCH_SCAN)(all[0], all[k]);
    }
    if all != [] {
      assert all[0] in all;
    }
  }

  /** A compact page completed with the fetched contents is the full page, metadata aside. */
  lemma ContentsRestorePage(rows: seq<AssetRow>, page: seq<AssetRow>, contents: map<string, string>)
    requires UniqueIds(rows) && forall r :: r in page ==> r in rows && r.Live()
    requires forall r :: r in rows && r.Live() && r in page && r.content.Some? ==>
      r.id in contents && contents[r.id] == r.content.value
    requires forall id :: id in contents ==>
      exists r :: r in rows && r.Live() && r.id == id && r.content.Some?
    ensures Map((r: AssetRow) => r.(content := if r.id in contents then Some(contents[r.id]) else None),
        Map(Compact, page))
      == Map((r: AssetRow) => r.(metadata := map[]), page)
  {
    var restore := (r: AssetRow) =>
      r.(content := if r.id in contents then Some(contents[r.id]) else None);
    forall k | 0 <= k < |page|
      ensures restore(Compact(page[k])) == page[k].(metadata := map[])
    {
      var r := page[k];
      assert r in page;
      if r.id in contents {
        var x :| x in rows && x.Live() && x.id == r.id && x.content.Some?;
        SameIdSameRow(rows, r, x);
      }
    }
  }

  // ---------- The services' own walks ----------

  /** The cursor after the first `i` rows, whatever the time it is printed at. */
  function WalkCursor(all: seq<AssetRow>, i: nat): Option<string>
    requires i <= |all|
  {
    if i == 0 then None else Some(all[i - 1].updatedAt + (['|'] + all[i - 1].id))
  }

  lemma MarksAreStable(all: seq<AssetRow>, i: nat, now: Instant)
    requires i <= |all| && forall r :: r in all ==> IsStamp(r.updatedAt)
    ensures Marks(all, Mark(SEARCH_SCAN, now))(i) == WalkCursor(all, i)
  {
    if i > 0 {
      assert all[i - 1] in all;
      ReprintIsIdentity(all[i - 1].updatedAt, now);
    }
  }

  /** A page of a walk through the search. */
  lemma SearchPageFrom(
    rows: seq<AssetRow>, wanted: AssetRow -> bool, limit: nat, i: nat, now: Instant,
    all: seq<AssetRow>)
    requires WellFormed(rows) && limit >= 1
    requires all == Answer(rows, SEARCH_SCAN, wanted) && i <= |all|
    ensures Page(rows, SEARCH_SCAN, wanted, limit, WalkCursor(all, i), now) ==
      if |all| - i > limit then (all[i..i + limit], WalkCursor(all, i + limit)) else (all[i..], None)
  {
    AnswerIsSorted(rows, SEARCH_SCAN, wanted, all);
    PageIsNext(rows, SEARCH_SCAN, wanted, limit, i, now, all);
    MarksAreStable(all, i, now);
    if |all| - i > limit {
      MarksAreStable(all, i + limit, now);
    }
  }

  /** The same, row by row. */
  lemma SearchPageElements(
    rows: seq<AssetRow>, wanted: AssetRow -> bool, limit: nat, i: nat, now: Instant,
    all: seq<AssetRow>, page: seq<AssetRow>, next: Option<string>)
    returns (i': nat)
    requires WellFormed(rows) && limit >= 1
    requires all == Answer(rows, SEARCH_SCAN, wanted) && i <= |all|
    requires (page, next) == Page(rows, SEARCH_SCAN, wanted, limit, WalkCursor(all, i), now)
    ensures i <= i' <= |all| && page == all[i..i']
    ensures if next.Some? then i < i' && next == WalkCursor(all, i') else i' == |all|
  {
    SearchPageFrom(rows, wanted, limit, i, now, all);
    i' := PageElements(all, i, limit, page, next);
  }

  lemma PageElements(
    all: seq<AssetRow>, i: nat, limit: nat, page: seq<AssetRow>, next: Option<string>)
    returns (i': nat)
    requires i <= |all| && limit >= 1
    requires (page, next) ==
      if |all| - i > limit then (all[i..i + limit], WalkCursor(all, i + limit)) else (all[i..], None)
    ensures i <= i' <= |all| && page == all[i..i']
    ensures if next.Some? then i < i' && next == WalkCursor(all, i') else i' == |all|
  {
    i' := i + |page|;
  }
}
