/** Retention: which assets a prune selects, and what it does to them. */
module RetentionPrune {
  import opened Outcomes
  import opened Models
  import opened Rfc3339
  import opened Tables
  import opened AssetRepository
  import opened Pagination
  import AssetService
  import Audit
  import Collections
  import Lexical
  import RelationRepository
  import RelationRuns

  const PRUNE_PAGE: nat := 500
  const MAX_CANDIDATES: nat := 10000

  function TaggedWith(category: string, value: string): Query {
    Query(None, [(category, value)])
  }

  /** Created before the cutoff; an unreadable stamp reads as the present. */
  predicate Older(cutoff: Instant, r: AssetRow) {
    match Parse(r.createdAt)
    case Some(created) => Nanos(created) < Nanos(cutoff)
    case None => false
  }

  function OlderThan(cutoff: Instant): AssetRow -> bool {
    r => Older(cutoff, r)
  }

  /** The newest ten thousand old assets with the tag, newest first. */
  function Candidates(
    rows: seq<AssetRow>, fts: FullText, category: string, value: string, cutoff: Instant)
    : seq<AssetRow>
  {
    var all := Answer(rows, SEARCH_SCAN, Wanted(fts, TaggedWith(category, value)));
    Take(MAX_CANDIDATES, Filter(OlderThan(cutoff), all))
  }

  /** On stored stamps, older is what the string comparison says it is. */
  lemma OlderIsLexical(cutoff: Instant, r: AssetRow)
    requires cutoff.Valid() && IsStamp(r.createdAt)
    ensures Older(cutoff, r) <==> Lexical.Less(r.createdAt, Render(cutoff))
  {
    var created: Instant :| created.Valid() && r.createdAt == Render(created);
    ParseAfterRender(created);
    LexicalIsChronological(created, cutoff);
  }

  lemma OneMore(p: AssetRow -> bool, all: seq<AssetRow>, n: nat)
    requires n < |all|
    ensures Filter(p, all[..n + 1]) == Filter(p, all[..n]) + if p(all[n]) then [all[n]] else []
  {
    assert all[..n + 1] == all[..n] + [all[n]];
    FilterAppend(p, all[..n], [all[n]]);
  }

  lemma FullAt(p: AssetRow -> bool, all: seq<AssetRow>, n: nat)
    requires n <= |all| && |Filter(p, all[..n])| == MAX_CANDIDATES
    ensures Take(MAX_CANDIDATES, Filter(p, all)) == Filter(p, all[..n])
  {
    assert all == all[..n] + all[n..];
    FilterAppend(p, all[..n], all[n..]);
  }

  // ---------- What is due ----------

  /** A live asset with the tag, stamped before the cutoff. */
  ghost predicate Due(r: AssetRow, category: string, value: string, cutoff: Instant) {
    && r.deletedAt.None?
    && (exists t :: t in r.tags && t.category == category && t.value == value)
    && Lexical.Less(r.createdAt, Render(cutoff))
  }

  /** `x` was changed after `y`, or with the same stamp and has the greater id. */
  predicate Newer(x: AssetRow, y: AssetRow) {
    Lexical.Less(y.updatedAt, x.updatedAt)
    || (y.updatedAt == x.updatedAt && Lexical.Less(y.id, x.id))
  }

  /** The list has the newest ten thousand of the assets that are due, or all of them if there
      are no more, each once and newest first. */
  ghost predicate NewestDue(
    rows: seq<AssetRow>, category: string, value: string, cutoff: Instant, list: seq<AssetRow>)
  {
    var due := set r | r in rows && Due(r, category, value, cutoff);
    && (forall r :: r in list ==> r in due)
    && (forall i, j :: 0 <= i < j < |list| ==> Newer(list[i], list[j]))
    && |list| == (if |due| < 10000 then |due| else 10000)
    && (forall r, x :: r in due && r !in list && x in list ==> Newer(x, r))
  }

  lemma OldIsDue(fts: FullText, category: string, value: string, cutoff: Instant, r: AssetRow)
    requires cutoff.Valid() && IsStamp(r.createdAt)
    ensures Due(r, category, value, cutoff)
      <==> Satisfies(fts, TaggedWith(category, value), r) && Older(cutoff, r)
  {
    OlderIsLexical(cutoff, r);
    assert TaggedWith(category, value).tags[0] == (category, value);
    assert r.HasTag(category, value)
      <==> exists t :: t in r.tags && t.category == category && t.value == value;
  }

  lemma {:induction false} FilterKeepsOrder(p: AssetRow -> bool, s: seq<AssetRow>)
    requires Ascending(Order(SEARCH_SCAN), s)
    ensures Ascending(Order(SEARCH_SCAN), Filter(p, s))
  {
    if s != [] {
      HeadFirst(Order(SEARCH_SCAN), s);
      FilterKeepsOrder(p, s[1..]);
      FilterMembers(p, s[1..]);
      if p(s[0]) {
        PrependAscending(Order(SEARCH_SCAN), s[0], Filter(p, s[1..]));
      }
    }
  }

  /** All assets that are due, newest first. */
  lemma AgedFacts(
    rows: seq<AssetRow>, fts: FullText, category: string, value: string, cutoff: Instant,
    aged: seq<AssetRow>)
    requires WellFormed(rows) && cutoff.Valid()
    requires aged == Filter(
      OlderThan(cutoff), Answer(rows, SEARCH_SCAN, Wanted(fts, TaggedWith(category, value))))
    ensures forall r :: r in aged <==> r in rows && Due(r, category, value, cutoff)
    ensures forall i, j :: 0 <= i < j < |aged| ==> Newer(aged[i], aged[j])
    ensures |aged| == |set r | r in rows && Due(r, category, value, cutoff)|
  {
    var wanted := Wanted(fts, TaggedWith(category, value));
    var all := Answer(rows, SEARCH_SCAN, wanted);
    AgedInOrder(rows, wanted, all, cutoff, aged);
    forall r
      ensures r in aged <==> r in rows && Due(r, category, value, cutoff)
    {
      AgedIsDue(rows, fts, category, value, cutoff, all, r);
    }
    SizeOfDistinct(aged);
    assert (set r | r in aged) == (set r | r in rows && Due(r, category, value, cutoff));
  }

  lemma AgedIsDue(
    rows: seq<AssetRow>, fts: FullText, category: string, value: string, cutoff: Instant,
    all: seq<AssetRow>, r: AssetRow)
    requires WellFormed(rows) && cutoff.Valid()
    requires all == Answer(rows, SEARCH_SCAN, Wanted(fts, TaggedWith(category, value)))
    ensures r in Filter(OlderThan(cutoff), all) <==> r in rows && Due(r, category, value, cutoff)
  {
    AnswerIsSorted(rows, SEARCH_SCAN, Wanted(fts, TaggedWith(category, value)), all);
    FilterMember(OlderThan(cutoff), all, r);
    if r in rows {
      OldIsDue(fts, category, value, cutoff, r);
    }
  }

  lemma AgedInOrder(
    rows: seq<AssetRow>, wanted: AssetRow -> bool, all: seq<AssetRow>, cutoff: Instant,
    aged: seq<AssetRow>)
    requires UniqueIds(rows) && all == Answer(rows, SEARCH_SCAN, wanted)
    requires aged == Filter(OlderThan(cutoff), all)
    ensures forall i, j :: 0 <= i < j < |aged| ==> Newer(aged[i], aged[j])
    ensures NoDuplicates(aged)
  {
    AnswerIsSorted(rows, SEARCH_SCAN, wanted, all);
    RowsAreOrdered(rows, SEARCH_SCAN);
    AscendingNoDuplicates(Order(SEARCH_SCAN), all, RowSet(rows));
    FilterNoDuplicates(OlderThan(cutoff), all);
    FilterKeepsOrder(OlderThan(cutoff), all);
    AscendingIsNewestFirst(aged);
  }

  lemma AscendingIsNewestFirst(s: seq<AssetRow>)
    requires Ascending(Order(SEARCH_SCAN), s)
    ensures forall i, j :: 0 <= i < j < |s| ==> Newer(s[i], s[j])
  {
    forall i, j | 0 <= i < j < |s|
      ensures Newer(s[i], s[j])
    {
      assert Order(SEARCH_SCAN)(s[i], s[j]);
    }
  }

  lemma TakeNewest(aged: seq<AssetRow>, list: seq<AssetRow>)
    requires list == Take(MAX_CANDIDATES, aged)
    requires forall i, j :: 0 <= i < j < |aged| ==> Newer(aged[i], aged[j])
    ensures forall i, j :: 0 <= i < j < |list| ==> Newer(list[i], list[j])
    ensures forall r :: r in list ==> r in aged
    ensures forall r, x :: r in aged && r !in list && x in list ==> Newer(x, r)
  {
    assert forall i :: 0 <= i < |list| ==> list[i] == aged[i];
    forall r, x | r in aged && r !in list && x in list
      ensures Newer(x, r)
    {
      assert aged == list + aged[|list|..];
      var j :| |list| <= j < |aged| && aged[j] == r;
      var i :| 0 <= i < |list| && list[i] == x;
    }
  }

  /** The candidates read off the rows. */
  lemma CandidatesInBrief(
    rows: seq<AssetRow>, fts: FullText, category: string, value: string, cutoff: Instant)
    requires WellFormed(rows) && cutoff.Valid()
    ensures NewestDue(rows, category, value, cutoff, Candidates(rows, fts, category, value, cutoff))
  {
    var aged := Filter(
      OlderThan(cutoff), Answer(rows, SEARCH_SCAN, Wanted(fts, TaggedWith(category, value))));
    AgedFacts(rows, fts, category, value, cutoff, aged);
    TakeNewest(aged, Candidates(rows, fts, category, value, cutoff));
  }

  // ---------- The walk ----------

  /** The walk: page by page through the search, up to the cap. */
  method PruneCandidates(
    assets: Repository, category: string, value: string, cutoff: Instant, now: Instant)
    returns (candidates: seq<AssetRow>)
    requires WellFormed(assets.rows)
    ensures candidates == Candidates(assets.rows, assets.fts, category, value, cutoff)
    ensures cutoff.Valid() ==> NewestDue(assets.rows, category, value, cutoff, candidates)
  {
    if cutoff.Valid() {
      CandidatesInBrief(assets.rows, assets.fts, category, value, cutoff);
    }
    var q := TaggedWith(category, value);
    ghost var all := Answer(assets.rows, SEARCH_SCAN, Wanted(assets.fts, q));
    ghost var i := 0;
    var cursor := None;
    candidates := [];
    while true
      invariant Sifted(candidates, cutoff, all, i) && cursor == WalkCursor(all, i)
      decreases |all| - i
    {
      var next, full;
      candidates, next, full, i := SiftNextPage(assets, q, cursor, cutoff, now, candidates, all, i);
      if full {
        return;
      }
      if next.None? {
        assert all[..i] == all;
        return;
      }
      cursor := next;
    }
  }

  /** The old rows among the walk's first `n`, as long as they are fewer than the cap. */
  ghost predicate Sifted(candidates: seq<AssetRow>, cutoff: Instant, all: seq<AssetRow>, n: nat) {
    n <= |all| && candidates == Filter(OlderThan(cutoff), all[..n]) && |candidates| < MAX_CANDIDATES
  }

  /** One turn of the loop. */
  method SiftNextPage(
    assets: Repository, q: Query, cursor: Option<string>, cutoff: Instant, now: Instant,
    before: seq<AssetRow>, ghost all: seq<AssetRow>, ghost i: nat)
    returns (candidates: seq<AssetRow>, next: Option<string>, full: bool, ghost i': nat)
    requires WellFormed(assets.rows) && all == Answer(assets.rows, SEARCH_SCAN, Wanted(assets.fts, q))
    requires Sifted(before, cutoff, all, i) && cursor == WalkCursor(all, i)
    ensures full ==> candidates == Take(MAX_CANDIDATES, Filter(OlderThan(cutoff), all))
    ensures !full ==> Sifted(candidates, cutoff, all, i')
    ensures !full ==> if next.Some? then i < i' && next == WalkCursor(all, i') else i' == |all|
  {
    var page;
    page, next := assets.Search(q, PRUNE_PAGE, cursor, now);
    i' := SearchPageElements(
      assets.rows, Wanted(assets.fts, q), PRUNE_PAGE, i, now, all, page, next);
    candidates, full := Sift(page, before, cutoff, all, i, i');
  }

  /** The old rows of a page; stops at the cap. */
  method Sift(
    page: seq<AssetRow>, before: seq<AssetRow>, cutoff: Instant, ghost all: seq<AssetRow>,
    ghost i: nat, ghost end: nat)
    returns (candidates: seq<AssetRow>, full: bool)
    requires i <= end <= |all| && page == all[i..end]
    requires Sifted(before, cutoff, all, i)
    ensures full ==> candidates == Take(MAX_CANDIDATES, Filter(OlderThan(cutoff), all))
    ensures !full ==> Sifted(candidates, cutoff, all, end)
  {
    candidates := before;
    ghost var n := i;
    for k := 0 to |page|
      invariant n == i + k && Sifted(candidates, cutoff, all, n)
    {
      assert page[k] == all[i..end][k] == all[n];
      if Older(cutoff, page[k]) {
        if |candidates| + 1 >= MAX_CANDIDATES {
          SiftedFull(candidates, cutoff, all, n);
          return candidates + [page[k]], true;
        }
        SiftedTakes(candidates, cutoff, all, n);
        candidates := candidates + [page[k]];
      } else {
        SiftedSkips(candidates, cutoff, all, n);
      }
      n := n + 1;
    }
    full := false;
  }

  lemma SiftedSkips(candidates: seq<AssetRow>, cutoff: Instant, all: seq<AssetRow>, n: nat)
    requires n < |all| && Sifted(candidates, cutoff, all, n) && !Older(cutoff, all[n])
    ensures Sifted(candidates, cutoff, all, n + 1)
  {
    OneMore(OlderThan(cutoff), all, n);
  }

  lemma SiftedTakes(candidates: seq<AssetRow>, cutoff: Instant, all: seq<AssetRow>, n: nat)
    requires n < |all| && Sifted(candidates, cutoff, all, n) && Older(cutoff, all[n])
    requires |candidates| + 1 < MAX_CANDIDATES
    ensures Sifted(candidates + [all[n]], cutoff, all, n + 1)
  {
    OneMore(OlderThan(cutoff), all, n);
  }

  lemma SiftedFull(candidates: seq<AssetRow>, cutoff: Instant, all: seq<AssetRow>, n: nat)
    requires n < |all| && Sifted(candidates, cutoff, all, n) && Older(cutoff, all[n])
    requires |candidates| + 1 == MAX_CANDIDATES
    ensures candidates + [all[n]] == Take(MAX_CANDIDATES, Filter(OlderThan(cutoff), all))
  {
    OneMore(OlderThan(cutoff), all, n);
    FullAt(OlderThan(cutoff), all, n + 1);
  }

  // ---------- Executing ----------

  /** These assets, if live, are soft-deleted, and nothing else about any row changes. */
  ghost predicate SoftDeleted(rows: seq<AssetRow>, rows': seq<AssetRow>, gone: set<string>) {
    && |rows'| == |rows|
    && forall k :: 0 <= k < |rows| ==>
      if rows[k].id in gone && rows[k].Live() then
        rows'[k].deletedAt.Some? && rows'[k] == rows[k].(deletedAt := rows'[k].deletedAt)
      else rows'[k] == rows[k]
  }

  /** Of the first `n` candidates, those whose soft delete was made. */
  function Gone(candidates: seq<AssetRow>, faults: nat -> Option<AssetService.Call>, n: nat): set<string>
    requires n <= |candidates|
  {
    set k | 0 <= k < n && AssetService.Done(AssetService.SoftDelete, faults(k)) :: candidates[k].id
  }

  /** Of the first `n` candidates, those whose delete failed somewhere. */
  function Failed(candidates: seq<AssetRow>, faults: nat -> Option<AssetService.Call>, n: nat): seq<string>
    requires n <= |candidates|
  {
    if n == 0 then []
    else
      var before := Failed(candidates, faults, n - 1);
      if faults(n - 1).Some? then before + [candidates[n - 1].id] else before
  }

  ghost predicate DistinctLive(rows: seq<AssetRow>, candidates: seq<AssetRow>) {
    && (forall r :: r in candidates ==> r in rows && r.Live())
    && forall i, j :: 0 <= i < j < |candidates| ==> candidates[i].id != candidates[j].id
  }

  lemma CandidatesAreLive(
    rows: seq<AssetRow>, fts: FullText, category: string, value: string, cutoff: Instant)
    requires WellFormed(rows)
    ensures DistinctLive(rows, Candidates(rows, fts, category, value, cutoff))
  {
    var wanted := Wanted(fts, TaggedWith(category, value));
    var all := Answer(rows, SEARCH_SCAN, wanted);
    var aged := Filter(OlderThan(cutoff), all);
    RowsAreOrdered(rows, SEARCH_SCAN);
    AnswerIsSorted(rows, SEARCH_SCAN, wanted, all);
    AscendingNoDuplicates(Order(SEARCH_SCAN), all, RowSet(rows));
    FilterNoDuplicates(OlderThan(cutoff), all);
    FilterMembers(OlderThan(cutoff), all);
    LiveRowsAreDistinct(rows, aged, Take(MAX_CANDIDATES, aged));
  }

  lemma LiveRowsAreDistinct(rows: seq<AssetRow>, aged: seq<AssetRow>, candidates: seq<AssetRow>)
    requires UniqueIds(rows) && NoDuplicates(aged) && candidates <= aged
    requires forall r :: r in aged ==> r in rows && r.Live()
    ensures DistinctLive(rows, candidates)
  {
    forall i, j | 0 <= i < j < |candidates|
      ensures candidates[i].id != candidates[j].id
    {
      assert candidates[i] == aged[i] && candidates[j] == aged[j];
      assert aged[i] in aged && aged[j] in aged;
      if candidates[i].id == candidates[j].id {
        SameIdSameRow(rows, aged[i], aged[j]);
      }
    }
  }

  lemma SoftDeletedKeepsIds(rows: seq<AssetRow>, rows': seq<AssetRow>, gone: set<string>)
    requires UniqueIds(rows) && SoftDeleted(rows, rows', gone)
    ensures UniqueIds(rows')
  {
    forall i, j | 0 <= i < j < |rows'|
      ensures rows'[i].id != rows'[j].id
    {
      assert rows'[i].id == rows[i].id && rows'[j].id == rows[j].id;
    }
  }

  /** A live row is found by its id as long as it has not been deleted. */
  lemma StillFound(rows: seq<AssetRow>, rows': seq<AssetRow>, gone: set<string>, r: AssetRow)
    requires UniqueIds(rows) && SoftDeleted(rows, rows', gone)
    requires r in rows && r.Live() && r.id !in gone
    ensures FindLive(rows', r.id) == Some(r)
  {
    var k :| 0 <= k < |rows| && rows[k] == r;
    SoftDeletedKeepsIds(rows, rows', gone);
    FindLiveFinds(rows', k);
  }

  lemma SoftDeletedOneMore(
    rows: seq<AssetRow>, rows': seq<AssetRow>, rows'': seq<AssetRow>, gone: set<string>, id: string,
    failing: Option<AssetService.Call>, when: Instant)
    requires SoftDeleted(rows, rows', gone) && id !in gone
    requires AssetService.RowsDeleted(rows', rows'', id, failing, when)
    ensures SoftDeleted(rows, rows'',
      if AssetService.Done(AssetService.SoftDelete, failing) then gone + {id} else gone)
  {
    forall k | 0 <= k < |rows|
      ensures rows'[k].id == rows[k].id
    {
    }
  }

  lemma GoneOneMore(candidates: seq<AssetRow>, faults: nat -> Option<AssetService.Call>, n: nat)
    requires n < |candidates|
    requires forall i, j :: 0 <= i < j < |candidates| ==> candidates[i].id != candidates[j].id
    ensures candidates[n].id !in Gone(candidates, faults, n)
    ensures Gone(candidates, faults, n + 1) == Gone(candidates, faults, n) +
      if AssetService.Done(AssetService.SoftDelete, faults(n)) then {candidates[n].id} else {}
  {
  }

  lemma NextIsThere(
    rows: seq<AssetRow>, rows': seq<AssetRow>, candidates: seq<AssetRow>,
    faults: nat -> Option<AssetService.Call>, n: nat)
    requires n < |candidates| && UniqueIds(rows) && DistinctLive(rows, candidates)
    requires SoftDeleted(rows, rows', Gone(candidates, faults, n))
    ensures FindLive(rows', candidates[n].id).Some?
  {
    assert candidates[n] in candidates;
    GoneOneMore(candidates, faults, n);
    StillFound(rows, rows', Gone(candidates, faults, n), candidates[n]);
  }

  lemma NextIsGone(
    rows: seq<AssetRow>, rows': seq<AssetRow>, rows'': seq<AssetRow>, candidates: seq<AssetRow>,
    faults: nat -> Option<AssetService.Call>, n: nat, when: Instant)
    requires n < |candidates| && DistinctLive(rows, candidates)
    requires SoftDeleted(rows, rows', Gone(candidates, faults, n))
    requires AssetService.RowsDeleted(rows', rows'', candidates[n].id, faults(n), when)
    ensures SoftDeleted(rows, rows'', Gone(candidates, faults, n + 1))
  {
    GoneOneMore(candidates, faults, n);
    SoftDeletedOneMore(
      rows, rows', rows'', Gone(candidates, faults, n), candidates[n].id, faults(n), when);
  }

  /** None of the first `n` deletes fails where it would leave memberships behind. */
  ghost predicate NoneInterrupted(faults: nat -> Option<AssetService.Call>, n: nat) {
    forall k :: 0 <= k < n ==> !AssetService.Interrupted(faults(k))
  }

  datatype Report = Report(dryRun: bool, matched: nat, pruned: nat, failed: seq<string>)

  /** `faults(k)` is the call that fails in the delete of the `k`-th candidate, if one does;
      `taken` are the candidates. */
  method Prune(
    assets: Repository, relations: RelationRepository.Repository,
    collections: Collections.Repository, audit: Audit.Repository, clock: Clock, category: string,
    value: string, cutoff: Instant, dryRun: bool, faults: nat -> Option<AssetService.Call>,
    user: string)
    returns (report: Report, ghost taken: seq<AssetRow>)
    requires clock.Valid() && WellFormed(assets.rows)
    modifies assets`rows, relations, collections, audit, clock
    ensures taken == Candidates(old(assets.rows), assets.fts, category, value, cutoff)
    ensures cutoff.Valid() ==> NewestDue(old(assets.rows), category, value, cutoff, taken)
    ensures report.dryRun == dryRun && report.matched == |taken|
    ensures dryRun ==>
      && assets.rows == old(assets.rows) && relations.rows == old(relations.rows)
      && collections.members == old(collections.members) && audit.rows == old(audit.rows)
    ensures !dryRun ==>
      && report.pruned + |report.failed| == report.matched
      && report.failed == Failed(taken, faults, |taken|)
      && SoftDeleted(old(assets.rows), assets.rows, Gone(taken, faults, |taken|))
      && RelationRuns.Shrinks(old(relations.rows), relations.rows)
      && (NoneInterrupted(faults, |taken|) ==> Collections.Leads(
        old(assets.rows), old(collections.members), assets.rows, collections.members))
  {
    var candidates := PruneCandidates(assets, category, value, cutoff, clock.last);
    if dryRun {
      return Report(true, |candidates|, 0, []), candidates;
    }
    ghost var rows := assets.rows;
    CandidatesAreLive(rows, assets.fts, category, value, cutoff);
    var pruned, failed := Execute(
      assets, relations, collections, audit, clock, candidates, faults, user);
    report, taken := Report(false, |candidates|, pruned, failed), candidates;
  }

  /** After the first `n` candidates: which assets are gone, and that their deletes were steps. */
  ghost predicate Executed(
    rows: seq<AssetRow>, rows': seq<AssetRow>, members: set<Collections.Membership>,
    members': set<Collections.Membership>, candidates: seq<AssetRow>,
    faults: nat -> Option<AssetService.Call>, n: nat)
  {
    && n <= |candidates| && SoftDeleted(rows, rows', Gone(candidates, faults, n))
    && (NoneInterrupted(faults, n) ==> Collections.Leads(rows, members, rows', members'))
  }

  method Execute(
    assets: Repository, relations: RelationRepository.Repository,
    collections: Collections.Repository, audit: Audit.Repository, clock: Clock,
    candidates: seq<AssetRow>, faults: nat -> Option<AssetService.Call>, user: string)
    returns (pruned: nat, failed: seq<string>)
    requires clock.Valid() && UniqueIds(assets.rows) && DistinctLive(assets.rows, candidates)
    modifies assets`rows, relations, collections, audit, clock
    ensures clock.Valid() && pruned + |failed| == |candidates|
    ensures failed == Failed(candidates, faults, |candidates|)
    ensures Executed(
      old(assets.rows), assets.rows, old(collections.members), collections.members, candidates,
      faults, |candidates|)
    ensures RelationRuns.Shrinks(old(relations.rows), relations.rows)
  {
    pruned, failed := 0, [];
    ghost var rows, members := assets.rows, collections.members;
    Collections.LeadsNowhere(rows, members);
    for k := 0 to |candidates|
      invariant clock.Valid() && pruned + |failed| == k
      invariant failed == Failed(candidates, faults, k)
      invariant Executed(
        rows, assets.rows, members, collections.members, candidates, faults, k)
      invariant RelationRuns.Shrinks(old(relations.rows), relations.rows)
    {
      var done := DeleteCandidate(
        assets, relations, collections, audit, clock, candidates, faults, k, user, rows, members);
      if done {
        pruned := pruned + 1;
      } else {
        failed := failed + [candidates[k].id];
      }
    }
  }

  method DeleteCandidate(
    assets: Repository, relations: RelationRepository.Repository,
    collections: Collections.Repository, audit: Audit.Repository, clock: Clock,
    candidates: seq<AssetRow>, faults: nat -> Option<AssetService.Call>, k: nat, user: string,
    ghost rows: seq<AssetRow>, ghost members: set<Collections.Membership>)
    returns (done: bool)
    requires clock.Valid() && k < |candidates| && UniqueIds(rows) && DistinctLive(rows, candidates)
    requires Executed(rows, assets.rows, members, collections.members, candidates, faults, k)
    modifies assets`rows, relations, collections, audit, clock
    ensures clock.Valid() && (done <==> faults(k).None?)
    ensures Executed(rows, assets.rows, members, collections.members, candidates, faults, k + 1)
    ensures RelationRuns.Shrinks(old(relations.rows), relations.rows)
  {
    ghost var before, held := assets.rows, collections.members;
    NextIsThere(rows, before, candidates, faults, k);
    var result, when := AssetService.Delete(
      assets, relations, collections, audit, clock, faults(k), candidates[k].id, user);
    NextIsGone(rows, before, assets.rows, candidates, faults, k, when);
    if NoneInterrupted(faults, k + 1) {
      Collections.LeadsOneMore(rows, members, before, held, assets.rows, collections.members);
    }
    done := result.Ok?;
  }
}
