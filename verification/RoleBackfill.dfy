/** The backfill of `global_role` tags walks the assets newest first while its own writes make
    assets newer: it changes the order of the very list it pages through. */
module RoleBackfill {
  import opened Outcomes
  import opened Models
  import opened Rfc3339
  import opened Tables
  import opened AssetRepository
  import opened Pagination
  import Lexical

  const BACKFILL_PAGE: nat := 200

  predicate Lacks(r: AssetRow) {
    !r.HasCategory("global_role")
  }

  // ---------- What the backfill does to a table ----------

  /** Tagged once, with a stamp no earlier than the one it replaces. */
  ghost predicate Restamped(r: AssetRow, r': AssetRow, role: string) {
    && r' == r.(tags := r.tags + [Tag("global_role", role)], updatedAt := r'.updatedAt)
    && IsStamp(r'.updatedAt) && Lexical.AtMost(r.updatedAt, r'.updatedAt)
  }

  ghost predicate RowAfter(r: AssetRow, r': AssetRow, chosen: bool, role: string) {
    if chosen then Restamped(r, r', role) else r' == r
  }

  /** Of the table's rows, those among `walked` without the tag have received it. */
  ghost predicate Tagging(
    rows: seq<AssetRow>, rows': seq<AssetRow>, walked: seq<AssetRow>, role: string)
  {
    && |rows'| == |rows|
    && forall k :: 0 <= k < |rows| ==>
      RowAfter(rows[k], rows'[k], rows[k] in walked && Lacks(rows[k]), role)
  }

  /** A finished backfill: the live assets of the type without the tag, and no others, have
      received it, and that many were counted. */
  ghost predicate Backfilled(
    rows: seq<AssetRow>, rows': seq<AssetRow>, wanted: AssetRow -> bool, role: string, tagged: nat)
  {
    && |rows'| == |rows|
    && (forall k :: 0 <= k < |rows| ==>
      RowAfter(rows[k], rows'[k], wanted(rows[k]) && Lacks(rows[k]), role))
    && tagged == |Filter(Both(wanted, Lacks), rows)|
  }

  // ---------- Counting ----------

  lemma {:induction false} InsertKeepsCount<T>(p: T -> bool, before: (T, T) -> bool, x: T, s: seq<T>)
    ensures |Filter(p, Insert(before, x, s))| == (if p(x) then 1 else 0) + |Filter(p, s)|
  {
    if s == [] || before(x, s[0]) {
      assert ([x] + s)[1..] == s;
    } else {
      InsertKeepsCount(p, before, x, s[1..]);
      var t := [s[0]] + Insert(before, x, s[1..]);
      assert t[1..] == Insert(before, x, s[1..]);
    }
  }

  lemma {:induction false} SortKeepsCount<T>(p: T -> bool, before: (T, T) -> bool, s: seq<T>)
    ensures |Filter(p, Sort(before, s))| == |Filter(p, s)|
  {
    if s != [] {
      SortKeepsCount(p, before, s[1..]);
      InsertKeepsCount(p, before, s[0], Sort(before, s[1..]));
    }
  }

  // ---------- The walk is not disturbed ----------

  /** Tables that differ only in rows a condition leaves out select the same rows. */
  lemma {:induction false} FilterPointwise<T>(p: T -> bool, s: seq<T>, t: seq<T>)
    requires |s| == |t|
    requires forall k :: 0 <= k < |s| ==> p(s[k]) == p(t[k]) && (p(s[k]) ==> s[k] == t[k])
    ensures Filter(p, s) == Filter(p, t)
  {
    if s != [] {
      forall k | 0 <= k < |s| - 1
        ensures p(s[1..][k]) == p(t[1..][k]) && (p(s[1..][k]) ==> s[1..][k] == t[1..][k])
      {
        assert s[1..][k] == s[k + 1] && t[1..][k] == t[k + 1];
      }
      FilterPointwise(p, s[1..], t[1..]);
    }
  }

  /** A row with a later stamp comes no later in a listing of the newest first. */
  lemma NewerIsNotLater(mark: AssetRow, r: AssetRow, r': AssetRow)
    requires r'.id == r.id && Lexical.AtMost(r.updatedAt, r'.updatedAt)
    requires !RowBefore(SEARCH_SCAN, mark, r)
    ensures !RowBefore(SEARCH_SCAN, mark, r')
  {
    if RowBefore(SEARCH_SCAN, mark, r') && r'.updatedAt != r.updatedAt {
      KeyTransitive(true, mark.updatedAt, mark.id, r'.updatedAt, r'.id, r.updatedAt, r.id);
    }
  }

  lemma TaggedIsStillWanted(fts: FullText, assetType: string, r: AssetRow, r': AssetRow, role: string)
    requires Restamped(r, r', role)
    ensures Satisfies(fts, Typed(assetType), r') == Satisfies(fts, Typed(assetType), r)
  {
    var tag := Tag("global_role", role);
    assert r'.tags == r.tags + [tag];
    assert forall t :: t in r'.tags <==> t in r.tags || t == tag;
    assert r'.HasTag("type", assetType) == r.HasTag("type", assetType);
    assert Typed(assetType).tags[0] == ("type", assetType);
  }

  /** Past the walk's cursor the table still looks as it did at the start. */
  lemma WalkIsUndisturbed(
    fts: FullText, assetType: string, rows: seq<AssetRow>, rows': seq<AssetRow>,
    all: seq<AssetRow>, i: nat, role: string, now: Instant)
    requires WellFormed(rows) && all == Answer(rows, SEARCH_SCAN, Wanted(fts, Typed(assetType)))
    requires i <= |all| && Tagging(rows, rows', all[..i], role)
    ensures
      var wanted := Wanted(fts, Typed(assetType));
      var cursor := Marks(all, Mark(SEARCH_SCAN, now))(i);
      var past := (r: AssetRow) => wanted(r) && PastCursor(SEARCH_SCAN, cursor, r);
      Filter(past, rows') == Filter(past, rows)
  {
    var wanted := Wanted(fts, Typed(assetType));
    var cursor := Marks(all, Mark(SEARCH_SCAN, now))(i);
    var past := (r: AssetRow) => wanted(r) && PastCursor(SEARCH_SCAN, cursor, r);
    forall k | 0 <= k < |rows'|
      ensures past(rows'[k]) == past(rows[k]) && (past(rows'[k]) ==> rows'[k] == rows[k])
    {
      if rows'[k] != rows[k] {
        TaggedIsStillWanted(fts, assetType, rows[k], rows'[k], role);
        WalkedIsNotPast(rows, wanted, all, i, rows[k], rows'[k], now);
      }
    }
    FilterPointwise(past, rows', rows);
  }

  /** A walked row is before the cursor, and stays there when it gets a later stamp. */
  lemma WalkedIsNotPast(
    rows: seq<AssetRow>, wanted: AssetRow -> bool, all: seq<AssetRow>, i: nat, r: AssetRow,
    r': AssetRow, now: Instant)
    requires WellFormed(rows) && all == Answer(rows, SEARCH_SCAN, wanted) && i <= |all|
    requires r in all[..i] && r'.id == r.id && Lexical.AtMost(r.updatedAt, r'.updatedAt)
    ensures !PastCursor(SEARCH_SCAN, Marks(all, Mark(SEARCH_SCAN, now))(i), r)
    ensures !PastCursor(SEARCH_SCAN, Marks(all, Mark(SEARCH_SCAN, now))(i), r')
  {
    AnswerIsSorted(rows, SEARCH_SCAN, wanted, all);
    assert all[i - 1] in all;
    PastIsAfter(SEARCH_SCAN, all, i, r, now);
    PastIsAfter(SEARCH_SCAN, all, i, r', now);
    WalkedIsBefore(all, i, r);
    NewerIsNotLater(all[i - 1], r, r');
  }

  lemma WalkedIsBefore(all: seq<AssetRow>, i: nat, r: AssetRow)
    requires Ascending(Order(SEARCH_SCAN), all) && 0 < i <= |all| && r in all[..i]
    ensures !RowBefore(SEARCH_SCAN, all[i - 1], r)
  {
    var j :| 0 <= j < i && all[j] == r;
    var mark := all[i - 1];
    assert j < i - 1 ==> Order(SEARCH_SCAN)(all[j], mark);
    KeyTotal(true, r.updatedAt, r.id, mark.updatedAt, mark.id);
  }

  lemma PageIsUndisturbed(
    fts: FullText, assetType: string, rows: seq<AssetRow>, rows': seq<AssetRow>,
    all: seq<AssetRow>, i: nat, role: string, now: Instant)
    requires WellFormed(rows) && all == Answer(rows, SEARCH_SCAN, Wanted(fts, Typed(assetType)))
    requires i <= |all| && Tagging(rows, rows', all[..i], role)
    ensures
      var marks := Marks(all, Mark(SEARCH_SCAN, now));
      Page(rows', SEARCH_SCAN, Wanted(fts, Typed(assetType)), BACKFILL_PAGE, marks(i), now)
        == Page(rows, SEARCH_SCAN, Wanted(fts, Typed(assetType)), BACKFILL_PAGE, marks(i), now)
  {
    WalkIsUndisturbed(fts, assetType, rows, rows', all, i, role, now);
  }

  // ---------- One row ----------

  lemma TaggingKeepsIds(rows: seq<AssetRow>, rows': seq<AssetRow>, walked: seq<AssetRow>, role: string)
    requires UniqueIds(rows) && Tagging(rows, rows', walked, role)
    ensures UniqueIds(rows')
  {
    forall i, j | 0 <= i < j < |rows'|
      ensures rows'[i].id != rows'[j].id
    {
      assert rows'[i].id == rows[i].id && rows'[j].id == rows[j].id;
    }
  }

  /** The next row of the walk still stands as it did. */
  lemma NextIsUntouched(
    rows: seq<AssetRow>, rows': seq<AssetRow>, all: seq<AssetRow>, n: nat, role: string)
    returns (k: nat)
    requires UniqueIds(rows) && NoDuplicates(all) && n < |all| && all[n] in rows
    requires Tagging(rows, rows', all[..n], role)
    ensures k < |rows| && rows[k] == rows'[k] == all[n]
  {
    k :| k < |rows| && rows[k] == all[n];
    assert rows[k] !in all[..n];
  }

  /** The walk has dealt with the first `i` rows of its answer. */
  ghost predicate Walked(
    rows: seq<AssetRow>, rows': seq<AssetRow>, all: seq<AssetRow>, i: nat, role: string, tagged: nat)
  {
    && i <= |all| && Tagging(rows, rows', all[..i], role) && |Filter(Lacks, all[..i])| == tagged
  }

  lemma TaggingNext(
    rows: seq<AssetRow>, rows': seq<AssetRow>, rows'': seq<AssetRow>, all: seq<AssetRow>, n: nat,
    role: string, k: nat, now: Instant)
    requires UniqueIds(rows) && NoDuplicates(all) && n < |all|
    requires Tagging(rows, rows', all[..n], role) && NotBefore(now, rows)
    requires k < |rows| && rows[k] == rows'[k] == all[n] && Lacks(all[n])
    requires rows'' == UpdateRow(rows', all[n].id, WithTag(Tag("global_role", role), now))
    ensures Tagging(rows, rows'', all[..n + 1], role)
  {
    forall j | 0 <= j < |rows|
      ensures RowAfter(rows[j], rows''[j], rows[j] in all[..n + 1] && Lacks(rows[j]), role)
    {
      assert all[..n + 1] == all[..n] + [all[n]];
      if j == k {
        assert rows[j] in rows;
      } else {
        assert rows[j].id != rows[k].id && rows'[j].id == rows[j].id;
      }
    }
  }

  lemma WalkedSkips(
    rows: seq<AssetRow>, rows': seq<AssetRow>, all: seq<AssetRow>, n: nat, role: string,
    tagged: nat)
    requires n < |all| && Walked(rows, rows', all, n, role, tagged) && !Lacks(all[n])
    ensures Walked(rows, rows', all, n + 1, role, tagged)
  {
    assert all[..n + 1] == all[..n] + [all[n]];
    CountNext(all, n);
  }

  lemma CountNext(all: seq<AssetRow>, n: nat)
    requires n < |all|
    ensures |Filter(Lacks, all[..n + 1])| == |Filter(Lacks, all[..n])| + if Lacks(all[n]) then 1 else 0
  {
    assert all[..n + 1] == all[..n] + [all[n]];
    FilterAppend(Lacks, all[..n], [all[n]]);
  }

  // ---------- The backfill ----------

  /** Tags the walk's next row; being live, it is there to be tagged. */
  method TagRow(
    assets: Repository, clock: Clock, row: AssetRow, role: string,
    ghost rows: seq<AssetRow>, ghost all: seq<AssetRow>, ghost n: nat, ghost tagged: nat)
    requires clock.Valid() && UniqueIds(rows) && NotBefore(clock.last, rows)
    requires NoDuplicates(all) && n < |all| && all[n] in rows && all[n].Live()
    requires Walked(rows, assets.rows, all, n, role, tagged)
    requires row == all[n] && Lacks(row)
    modifies assets`rows, clock
    ensures clock.Valid() && NotBefore(clock.last, rows)
    ensures Walked(rows, assets.rows, all, n + 1, role, tagged + 1)
  {
    ghost var before, last := assets.rows, clock.last;
    ghost var k := NextIsUntouched(rows, before, all, n, role);
    TaggingKeepsIds(rows, before, all[..n], role);
    FindLiveFinds(before, k);
    var now := clock.Now();
    LaterStillNotBefore(last, now, rows);
    var done := assets.AddTag(row.id, Tag("global_role", role), now);
    assert done;
    TaggingNext(rows, before, assets.rows, all, n, role, k, now);
    CountNext(all, n);
  }

  /** The walk's next row is tagged unless it has the tag. */
  method TagIfLacking(
    assets: Repository, clock: Clock, row: AssetRow, role: string,
    ghost rows: seq<AssetRow>, ghost all: seq<AssetRow>, ghost n: nat, before: nat)
    returns (tagged: nat)
    requires clock.Valid() && UniqueIds(rows) && NotBefore(clock.last, rows)
    requires NoDuplicates(all) && n < |all| && all[n] in rows && all[n].Live()
    requires Walked(rows, assets.rows, all, n, role, before) && row == all[n]
    modifies assets`rows, clock
    ensures clock.Valid() && NotBefore(clock.last, rows)
    ensures Walked(rows, assets.rows, all, n + 1, role, tagged)
  {
    tagged := before;
    if row.HasCategory("global_role") {
      WalkedSkips(rows, assets.rows, all, n, role, before);
    } else {
      TagRow(assets, clock, row, role, rows, all, n, before);
      tagged := before + 1;
    }
  }

  /** Tags one page of assets; `n` of the walk's rows came before it. */
  method TagPage(
    assets: Repository, clock: Clock, page: seq<AssetRow>, role: string,
    ghost rows: seq<AssetRow>, ghost all: seq<AssetRow>, ghost n: nat, ghost end: nat,
    before: nat)
    returns (tagged: nat)
    requires clock.Valid() && UniqueIds(rows) && NotBefore(clock.last, rows)
    requires NoDuplicates(all) && forall r :: r in all ==> r in rows && r.Live()
    requires n <= end <= |all| && page == all[n..end]
    requires Walked(rows, assets.rows, all, n, role, before)
    modifies assets`rows, clock
    ensures clock.Valid() && NotBefore(clock.last, rows)
    ensures Walked(rows, assets.rows, all, end, role, tagged)
  {
    tagged := before;
    ghost var at := n;
    for i := 0 to |page|
      invariant clock.Valid() && NotBefore(clock.last, rows)
      invariant at == n + i && Walked(rows, assets.rows, all, at, role, tagged)
    {
      assert page[i] == all[n..end][i] == all[at];
      assert all[at] in all;
      tagged := TagIfLacking(assets, clock, page[i], role, rows, all, at, tagged);
      at := at + 1;
    }
  }

  /** The page the walk gets, from a table it has been writing to. */
  lemma NextOfWalk(
    fts: FullText, assetType: string, rows: seq<AssetRow>, rows': seq<AssetRow>,
    all: seq<AssetRow>, i: nat, role: string, now: Instant)
    requires WellFormed(rows) && all == Answer(rows, SEARCH_SCAN, Wanted(fts, Typed(assetType)))
    requires i <= |all| && Tagging(rows, rows', all[..i], role)
    ensures
      var wanted := Wanted(fts, Typed(assetType));
      Page(rows', SEARCH_SCAN, wanted, BACKFILL_PAGE, WalkCursor(all, i), now) ==
        if |all| - i > BACKFILL_PAGE then
          (all[i..i + BACKFILL_PAGE], WalkCursor(all, i + BACKFILL_PAGE))
        else (all[i..], None)
  {
    AnswerIsSorted(rows, SEARCH_SCAN, Wanted(fts, Typed(assetType)), all);
    PageIsUndisturbed(fts, assetType, rows, rows', all, i, role, now);
    MarksAreStable(all, i, now);
    SearchPageFrom(rows, Wanted(fts, Typed(assetType)), BACKFILL_PAGE, i, now, all);
  }

  lemma PageOfWalk(
    fts: FullText, assetType: string, rows: seq<AssetRow>, rows': seq<AssetRow>,
    all: seq<AssetRow>, i: nat, role: string, now: Instant, page: seq<AssetRow>,
    next: Option<string>)
    returns (i': nat)
    requires WellFormed(rows) && all == Answer(rows, SEARCH_SCAN, Wanted(fts, Typed(assetType)))
    requires i <= |all| && Tagging(rows, rows', all[..i], role)
    requires (page, next) == Page(
      rows', SEARCH_SCAN, Wanted(fts, Typed(assetType)), BACKFILL_PAGE, WalkCursor(all, i), now)
    ensures i <= i' <= |all| && page == all[i..i']
    ensures if next.Some? then i < i' && next == WalkCursor(all, i') else i' == |all|
  {
    NextOfWalk(fts, assetType, rows, rows', all, i, role, now);
    i' := PageElements(all, i, BACKFILL_PAGE, page, next);
  }

  ghost predicate Walk(fts: FullText, assetType: string, rows: seq<AssetRow>, all: seq<AssetRow>) {
    && WellFormed(rows) && all == Answer(rows, SEARCH_SCAN, Wanted(fts, Typed(assetType)))
    && NoDuplicates(all) && forall r :: r in all ==> r in rows && r.Live()
  }

  lemma WalkFacts(
    fts: FullText, assetType: string, rows: seq<AssetRow>, all: seq<AssetRow>)
    requires WellFormed(rows) && all == Answer(rows, SEARCH_SCAN, Wanted(fts, Typed(assetType)))
    ensures Walk(fts, assetType, rows, all) && Walked(rows, rows, all, 0, "", 0)
  {
    assert all[..0] == [];
    RowsAreOrdered(rows, SEARCH_SCAN);
    AnswerIsSorted(rows, SEARCH_SCAN, Wanted(fts, Typed(assetType)), all);
    AscendingNoDuplicates(Order(SEARCH_SCAN), all, RowSet(rows));
  }

  lemma WalkFinishes(
    fts: FullText, assetType: string, rows: seq<AssetRow>, rows': seq<AssetRow>,
    all: seq<AssetRow>, role: string, tagged: nat)
    requires WellFormed(rows) && all == Answer(rows, SEARCH_SCAN, Wanted(fts, Typed(assetType)))
    requires Tagging(rows, rows', all, role) && |Filter(Lacks, all)| == tagged
    ensures Backfilled(rows, rows', Wanted(fts, Typed(assetType)), role, tagged)
  {
    var wanted := Wanted(fts, Typed(assetType));
    AnswerIsSorted(rows, SEARCH_SCAN, wanted, all);
    SortKeepsCount(Lacks, Order(SEARCH_SCAN), Filter(wanted, rows));
    FilterTwice(wanted, Lacks, rows);
    forall k | 0 <= k < |rows|
      ensures rows[k] in all <==> wanted(rows[k])
    {
      assert rows[k] in rows;
    }
  }

  /** One turn of the loop: a page is fetched and tagged. */
  method BackfillOnePage(
    assets: Repository, clock: Clock, assetType: string, role: string, cursor: Option<string>,
    ghost rows: seq<AssetRow>, ghost all: seq<AssetRow>, ghost i: nat, before: nat)
    returns (next: Option<string>, tagged: nat, ghost i': nat)
    requires clock.Valid() && NotBefore(clock.last, rows)
    requires Walk(assets.fts, assetType, rows, all)
    requires Walked(rows, assets.rows, all, i, role, before) && cursor == WalkCursor(all, i)
    modifies assets`rows, clock
    ensures clock.Valid() && NotBefore(clock.last, rows)
    ensures Walked(rows, assets.rows, all, i', role, tagged)
    ensures if next.Some? then i < i' && next == WalkCursor(all, i') else i' == |all|
  {
    var page;
    page, next := assets.Search(Typed(assetType), BACKFILL_PAGE, cursor, clock.last);
    i' := PageOfWalk(assets.fts, assetType, rows, assets.rows, all, i, role, clock.last, page, next);
    tagged := TagPage(assets, clock, page, role, rows, all, i, i', before);
  }

  /** Stamps the role on every live asset of the type that has none. */
  method BackfillGlobalRole(assets: Repository, clock: Clock, assetType: string, role: string)
    returns (tagged: nat)
    requires clock.Valid() && WellFormed(assets.rows) && NotBefore(clock.last, assets.rows)
    modifies assets`rows, clock
    ensures clock.Valid()
    ensures Backfilled(
      old(assets.rows), assets.rows, Wanted(assets.fts, Typed(assetType)), role, tagged)
    ensures RolesGiven(old(assets.rows), assets.rows, assetType, role, tagged)
    ensures StillLive(old(assets.rows), assets.rows)
  {
    tagged := 0;
    var cursor := None;
    ghost var rows := assets.rows;
    ghost var all := Answer(rows, SEARCH_SCAN, Wanted(assets.fts, Typed(assetType)));
    ghost var i := 0;
    WalkFacts(assets.fts, assetType, rows, all);
    while true
      invariant clock.Valid() && NotBefore(clock.last, rows)
      invariant Walked(rows, assets.rows, all, i, role, tagged) && cursor == WalkCursor(all, i)
      decreases |all| - i
    {
      var next;
      next, tagged, i := BackfillOnePage(
        assets, clock, assetType, role, cursor, rows, all, i, tagged);
      if next.None? {
        break;
      }
      cursor := next;
    }
    assert all[..i] == all;
    WalkEnds(assets.fts, assetType, rows, assets.rows, all, role, tagged);
  }

  /** A live asset of the type that has no global role. */
  ghost predicate WithoutRole(r: AssetRow, assetType: string) {
    && r.Live()
    && (exists t :: t in r.tags && t.category == "type" && t.value == assetType)
    && forall t :: t in r.tags ==> t.category != "global_role"
  }

  /** Such an asset has the role afterwards, and a stamp no earlier; any other is as it was. */
  ghost predicate RoleGiven(r: AssetRow, r': AssetRow, assetType: string, role: string) {
    if WithoutRole(r, assetType) then
      && r'.tags == r.tags + [Tag("global_role", role)]
      && Lexical.AtMost(r.updatedAt, r'.updatedAt)
      && r' == r.(tags := r'.tags, updatedAt := r'.updatedAt)
    else r' == r
  }

  /** What a backfill does to the table, and what it counts. */
  ghost predicate RolesGiven(
    rows: seq<AssetRow>, rows': seq<AssetRow>, assetType: string, role: string, tagged: nat)
  {
    && |rows'| == |rows|
    && (forall k :: 0 <= k < |rows| ==> RoleGiven(rows[k], rows'[k], assetType, role))
    && tagged == |set r | r in rows && WithoutRole(r, assetType)|
  }

  lemma WithoutRoleIsWanted(fts: FullText, assetType: string, r: AssetRow)
    ensures WithoutRole(r, assetType) <==> Satisfies(fts, Typed(assetType), r) && Lacks(r)
  {
    assert Typed(assetType).tags[0] == ("type", assetType);
    assert r.HasTag("type", assetType)
      <==> exists t :: t in r.tags && t.category == "type" && t.value == assetType;
  }

  /** A finished backfill, read off the rows. */
  lemma BackfillInBrief(
    fts: FullText, assetType: string, rows: seq<AssetRow>, rows': seq<AssetRow>, role: string,
    tagged: nat)
    requires UniqueIds(rows) && Backfilled(rows, rows', Wanted(fts, Typed(assetType)), role, tagged)
    ensures RolesGiven(rows, rows', assetType, role, tagged)
  {
    CountInBrief(fts, assetType, rows);
    forall k | 0 <= k < |rows|
      ensures RoleGiven(rows[k], rows'[k], assetType, role)
    {
      WithoutRoleIsWanted(fts, assetType, rows[k]);
      RowInBrief(rows[k], rows'[k], assetType, role);
    }
  }

  lemma RowInBrief(r: AssetRow, r': AssetRow, assetType: string, role: string)
    requires RowAfter(r, r', WithoutRole(r, assetType), role)
    ensures RoleGiven(r, r', assetType, role)
  {
  }

  lemma CountInBrief(fts: FullText, assetType: string, rows: seq<AssetRow>)
    requires UniqueIds(rows)
    ensures |Filter(Both(Wanted(fts, Typed(assetType)), Lacks), rows)|
      == |set r | r in rows && WithoutRole(r, assetType)|
  {
    var p := Both(Wanted(fts, Typed(assetType)), Lacks);
    forall r
      ensures WithoutRole(r, assetType) <==> p(r)
    {
      WithoutRoleIsWanted(fts, assetType, r);
    }
    RowsAreOrdered(rows, SEARCH_SCAN);
    FilterSize(p, rows, set r | r in rows && WithoutRole(r, assetType));
  }

  lemma WalkEnds(
    fts: FullText, assetType: string, rows: seq<AssetRow>, rows': seq<AssetRow>,
    all: seq<AssetRow>, role: string, tagged: nat)
    requires WellFormed(rows) && all == Answer(rows, SEARCH_SCAN, Wanted(fts, Typed(assetType)))
    requires Tagging(rows, rows', all, role) && |Filter(Lacks, all)| == tagged
    ensures Backfilled(rows, rows', Wanted(fts, Typed(assetType)), role, tagged)
    ensures RolesGiven(rows, rows', assetType, role, tagged) && StillLive(rows, rows')
  {
    RowsStillLive(rows, rows');
    WalkFinishes(fts, assetType, rows, rows', all, role, tagged);
    BackfillInBrief(fts, assetType, rows, rows', role, tagged);
  }

  /** A second run finds nothing to do. */
  lemma SecondRunIsNoOp(
    fts: FullText, assetType: string, rows: seq<AssetRow>, rows': seq<AssetRow>,
    rows'': seq<AssetRow>, role: string, role': string, tagged: nat, tagged': nat)
    requires Backfilled(rows, rows', Wanted(fts, Typed(assetType)), role, tagged)
    requires Backfilled(rows', rows'', Wanted(fts, Typed(assetType)), role', tagged')
    ensures rows'' == rows' && tagged' == 0
  {
    var wanted := Wanted(fts, Typed(assetType));
    forall k | 0 <= k < |rows'|
      ensures !Both(wanted, Lacks)(rows'[k])
    {
      if rows'[k] != rows[k] {
        var r' := rows'[k];
        assert r'.tags[|rows[k].tags|] == Tag("global_role", role);
        assert Tag("global_role", role) in r'.tags;
      }
    }
    FilterMembers(Both(wanted, Lacks), rows');
    EmptyOrInhabited(Filter(Both(wanted, Lacks), rows'));
  }
}
