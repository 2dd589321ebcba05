/** The audit table and its retention prune: archive every old row to a file, check the count,
    only then delete. This is the prune run on its own; AuditSchedule interleaves it. */
module Audit {
  import opened Outcomes
  import opened Rfc3339
  import opened Tables
  import Graph
  import Ids
  import Lexical
  import Models

  datatype AuditAction =
    | Create | Update | Delete | AddTag | RemoveTag | AddRelation | RemoveRelation
    | AddToCollection | RemoveFromCollection | AddMember | RemoveMember | AdminBypass | Adopt

  /** What the entry for a deleted asset records of a relation it took along. */
  datatype Summary = Summary(id: string, source: string, target: string, kind: Graph.RelationType)

  /** The `changes` object of an entry, as far as the services fill it in. */
  datatype Changes =
    | Plain
    | RelationChange(source: string, target: string, kind: Graph.RelationType)
    | Cascade(removed: seq<Summary>)
    | ContextChange(context: Models.AuthContext, cascade: bool, cascaded: nat)
    | AssetChange(asset: string)
    | MemberChange(member: string, seed: bool)
    | NameChange(name: string)
    | PruneReport(cutoff: string, archived: nat, deleted: nat, file: string)

  datatype AuditRow = AuditRow(
    id: string, entityType: string, entityId: string, action: AuditAction, changes: Changes,
    user: string, stamp: string)

  ghost predicate UniqueIds(rows: seq<AuditRow>) {
    forall i, j :: 0 <= i < j < |rows| ==> rows[i].id != rows[j].id
  }

  // ---------- Queries ----------

  predicate Before(r: AuditRow, cutoff: string) {
    Lexical.Less(r.stamp, cutoff)
  }

  function OlderThan(cutoff: string): AuditRow -> bool {
    r => Before(r, cutoff)
  }

  function NotOlderThan(cutoff: string): AuditRow -> bool {
    r => !Before(r, cutoff)
  }

  predicate IdBefore(x: AuditRow, y: AuditRow) {
    Lexical.Less(x.id, y.id)
  }

  predicate PastId(cursor: Option<string>, r: AuditRow) {
    cursor.Some? ==> Lexical.Less(cursor.value, r.id)
  }

  /** All rows older than the cutoff, in id order: what an archive of them should hold. */
  function Candidates(rows: seq<AuditRow>, cutoff: string): seq<AuditRow> {
    Sort(IdBefore, Filter(OlderThan(cutoff), rows))
  }

  /** One page of the archive walk. */
  function PageBefore(rows: seq<AuditRow>, cutoff: string, limit: nat, cursor: Option<string>)
    : seq<AuditRow>
  {
    Take(limit, Sort(IdBefore, Filter((r: AuditRow) => Before(r, cutoff) && PastId(cursor, r), rows)))
  }

  /** A full page may have a successor; its cursor is then the page's last id. */
  function NextBefore(page: seq<AuditRow>, limit: nat): Option<string> {
    if |page| == limit && page != [] then Some(page[|page| - 1].id) else None
  }

  class Repository {
    var rows: seq<AuditRow>

    constructor ()
      ensures rows == []
    {
      rows := [];
    }

    method Create(
      entityType: string, entityId: string, action: AuditAction, changes: Changes, user: string,
      now: Instant)
      returns (row: AuditRow)
      modifies this
      ensures rows == old(rows) + [row] && forall r :: r in old(rows) ==> r.id != row.id
      ensures row == AuditRow(row.id, entityType, entityId, action, changes, user, Render(now))
    {
      var id := Ids.NewId(set r | r in rows :: r.id);
      row := AuditRow(id, entityType, entityId, action, changes, user, Render(now));
      rows := rows + [row];
    }

    method CountBefore(cutoff: string) returns (n: nat)
      ensures n == |Candidates(rows, cutoff)|
    {
      n := |Filter(OlderThan(cutoff), rows)|;
    }

    method ListBefore(cutoff: string, limit: nat, cursor: Option<string>)
      returns (page: seq<AuditRow>, next: Option<string>)
      ensures page == PageBefore(rows, cutoff, limit, cursor) && next == NextBefore(page, limit)
    {
      page := PageBefore(rows, cutoff, limit, cursor);
      next := if |page| == limit && page != [] then Some(page[|page| - 1].id) else None;
    }

    method DeleteBefore(cutoff: string) returns (deleted: nat)
      modifies this
      ensures rows == Filter(NotOlderThan(cutoff), old(rows))
      ensures deleted == |Candidates(old(rows), cutoff)|
    {
      deleted := |Filter(OlderThan(cutoff), rows)|;
      rows := Filter(NotOlderThan(cutoff), rows);
    }
  }

  /** The archive directory: the rows of each file, one per line. */
  class ArchiveDirectory {
    var files: map<string, seq<AuditRow>>

    constructor ()
      ensures files == map[]
    {
      files := map[];
    }
  }

  // ---------- The walk is exact ----------

  lemma IdsAreOrdered(rows: seq<AuditRow>, all: set<AuditRow>)
    requires UniqueIds(rows) && all == (set r | r in rows)
    ensures Orders(IdBefore, all) && Within(rows, all) && NoDuplicates(rows)
  {
    forall x: AuditRow, y: AuditRow, z: AuditRow
      ensures !IdBefore(x, x)
      ensures x.id != y.id ==> IdBefore(x, y) || IdBefore(y, x)
      ensures IdBefore(x, y) && IdBefore(y, z) ==> IdBefore(x, z)
    {
      Lexical.Irreflexive(x.id);
      Lexical.Total(x.id, y.id);
      if IdBefore(x, y) && IdBefore(y, z) {
        Lexical.Transitive(x.id, y.id, z.id);
      }
    }
  }

  lemma CandidatesAreOld(rows: seq<AuditRow>, cutoff: string)
    requires UniqueIds(rows)
    ensures Ascending(IdBefore, Candidates(rows, cutoff))
    ensures forall r :: r in Candidates(rows, cutoff) <==> r in rows && Lexical.Less(r.stamp, cutoff)
    ensures forall i, j :: 0 <= i < j < |Candidates(rows, cutoff)| ==>
      Lexical.Less(Candidates(rows, cutoff)[i].id, Candidates(rows, cutoff)[j].id)
  {
    var all := set r | r in rows;
    IdsAreOrdered(rows, all);
    SortedFilter(IdBefore, OlderThan(cutoff), rows, all);
    var found := Candidates(rows, cutoff);
    assert forall i, j :: 0 <= i < j < |found| ==> IdBefore(found[i], found[j]);
  }

  /** The cursor after the first `k` candidates. */
  function CursorAfter(all: seq<AuditRow>, k: nat): Option<string>
    requires k <= |all|
  {
    if k == 0 then None else Some(all[k - 1].id)
  }

  /** From the cursor after the `k`-th candidate, a page is the next `limit` candidates. */
  lemma PageContinues(rows: seq<AuditRow>, cutoff: string, limit: nat, k: nat, all: seq<AuditRow>)
    requires UniqueIds(rows) && all == Candidates(rows, cutoff) && k <= |all|
    ensures PageBefore(rows, cutoff, limit, CursorAfter(all, k)) == Take(limit, all[k..])
  {
    var table := set r | r in rows;
    IdsAreOrdered(rows, table);
    CandidatesAreOld(rows, cutoff);
    assert k > 0 ==> all[k - 1] in all;
    SortAfter(
      IdBefore, OlderThan(cutoff),
      (r: AuditRow) => Before(r, cutoff) && PastId(CursorAfter(all, k), r), rows, k, table);
  }

  // ---------- The prune ----------

  datatype Report = Report(
    dryRun: bool, candidates: nat, archived: nat, deleted: nat, postCount: nat, verified: bool)

  const ARCHIVE_PAGE: nat := 500

  /** Writes a page to the end of the file, row by row. */
  method WritePage(
    directory: ArchiveDirectory, file: string, page: seq<AuditRow>, before: nat,
    ghost others: map<string, seq<AuditRow>>, ghost all: seq<AuditRow>)
    returns (archived: nat)
    requires before + |page| <= |all| && page == all[before..before + |page|]
    requires directory.files == others[file := all[..before]]
    modifies directory
    ensures archived == before + |page| && directory.files == others[file := all[..archived]]
  {
    archived := before;
    for i := 0 to |page|
      invariant archived == before + i && directory.files == others[file := all[..archived]]
    {
      assert all[..archived + 1] == all[..archived] + [page[i]];
      directory.files := directory.files[file := directory.files[file] + [page[i]]];
      archived := archived + 1;
    }
  }

  /** The archive phase: walks every candidate into the file and returns how many it wrote. */
  method ArchiveRows(audit: Repository, directory: ArchiveDirectory, cutoff: string, file: string)
    returns (archived: nat)
    requires UniqueIds(audit.rows)
    modifies directory
    ensures directory.files == old(directory.files)[file := Candidates(audit.rows, cutoff)]
    ensures archived == |Candidates(audit.rows, cutoff)|
  {
    directory.files := directory.files[file := []];
    archived := 0;
    var cursor: Option<string> := None;
    ghost var all := Candidates(audit.rows, cutoff);
    ghost var others := old(directory.files);
    while true
      invariant archived <= |all| && cursor == CursorAfter(all, archived)
      invariant directory.files == others[file := all[..archived]]
      decreases |all| - archived
    {
      PageContinues(audit.rows, cutoff, ARCHIVE_PAGE, archived, all);
      var page, next := audit.ListBefore(cutoff, ARCHIVE_PAGE, cursor);
      archived := WritePage(directory, file, page, archived, others, all);
      if next.None? {
        break;
      }
      assert page[|page| - 1] == all[archived - 1];
      cursor := next;
    }
    assert all[..archived] == all;
  }

  /** The prune without interference, when the count check cannot fail: everything older
      than the cutoff is in the file, then gone from the table, and the prune's own entry
      stays. */
  method AuditPrune(
    audit: Repository, directory: ArchiveDirectory, clock: Models.Clock, cutoff: Instant,
    dryRun: bool, file: Option<string>, user: string)
    returns (report: Result<Report>, own: Option<AuditRow>)
    requires UniqueIds(audit.rows) && clock.Valid()
    requires cutoff.Valid() && Nanos(cutoff) <= Nanos(clock.last)
    modifies audit, directory, clock
    ensures dryRun || file.None? ==> audit.rows == old(audit.rows) && directory.files == old(directory.files)
    ensures dryRun ==> report.Ok? && report.value.candidates == |Candidates(audit.rows, Render(cutoff))|
    ensures !dryRun && file.None? ==> report == Err(Internal)
    ensures !dryRun && file.Some? ==>
      var all := Candidates(old(audit.rows), Render(cutoff));
      && report == Ok(Report(false, |all|, |all|, |all|, 0, true))
      && directory.files == old(directory.files)[file.value := all]
      && own.Some? && !Before(own.value, Render(cutoff))
      && own.value.changes == PruneReport(Render(cutoff), |all|, |all|, file.value)
      && audit.rows == Filter(NotOlderThan(Render(cutoff)), old(audit.rows)) + [own.value]
    ensures !dryRun && file.Some? ==>
      && file.value in directory.files
      && (forall r :: r in directory.files[file.value] <==>
        r in old(audit.rows) && Lexical.Less(r.stamp, Render(cutoff)))
      && (forall r :: r in audit.rows <==>
        (r in old(audit.rows) && !Lexical.Less(r.stamp, Render(cutoff))) || r == own.value)
      && !Lexical.Less(own.value.stamp, Render(cutoff))
  {
    var before := Render(cutoff);
    var candidates := audit.CountBefore(before);
    if dryRun {
      return Ok(Report(true, candidates, 0, 0, 0, false)), None;
    }
    if file.None? {
      return Err(Internal), None;
    }
    var archived := ArchiveRows(audit, directory, before, file.value);
    if archived != candidates {
      return Err(Internal), None;
    }
    NothingOldIsLeft(audit.rows, before);
    CandidatesAreOld(audit.rows, before);
    FilterMembers(NotOlderThan(before), audit.rows);
    var deleted := audit.DeleteBefore(before);
    var postCount := audit.CountBefore(before);
    var now := clock.Now();
    var changes := PruneReport(before, archived, deleted, file.value);
    var row := audit.Create("audit_entries", "*", Delete, changes, user, now);
    Models.StampsFollowClock(cutoff, now);
    AtMostIsNotBefore(before, Render(now));
    own := Some(row);
    report := Ok(Report(
      false, candidates, archived, deleted, postCount, postCount == 0 && deleted == archived));
  }

  lemma AtMostIsNotBefore(s: string, t: string)
    requires Lexical.AtMost(s, t)
    ensures !Lexical.Less(t, s)
  {
    Lexical.Irreflexive(s);
    if Lexical.Less(s, t) {
      Lexical.Asymmetric(s, t);
    }
  }

  lemma NothingOldIsLeft(rows: seq<AuditRow>, cutoff: string)
    ensures Candidates(Filter(NotOlderThan(cutoff), rows), cutoff) == []
  {
    var left := Filter(NotOlderThan(cutoff), rows);
    FilterMembers(NotOlderThan(cutoff), rows);
    FilterMembers(OlderThan(cutoff), left);
    EmptyOrInhabited(Filter(OlderThan(cutoff), left));
  }
}
