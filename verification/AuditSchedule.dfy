/** Audit prunes interleaved with each other and with the service's own writes: every step of
    a prune, a create, or a failure may come next. What a prune deletes is in its archive. */
module AuditSchedule {
  import opened Outcomes
  import opened Tables
  import opened Audit
  import Lexical

  /** Where a prune stands. While it archives, the cursor of its next page. */
  datatype Phase =
    | Began | Counted | Archiving(cursor: Option<string>) | Archived | Synced | Verified
    | Deleted | Finished | Stopped

  /** A prune, with what it has counted so far, its hold on an archive file, and for the
      statement of its properties: the rows it counted, the rows it deleted, the old rows that
      were created behind its walk, and whether another prune deleted rows meanwhile. Of the
      archived rows `written` are in the file and `pending` in the writer's buffer. A foreign
      prune is one of another store that keeps its archives in the same directory. */
  datatype Run = Run(
    cutoff: string, file: string, inode: nat, phase: Phase, candidates: nat, archived: nat,
    written: nat, pending: seq<AuditRow>, deleted: nat, postCount: nat,
    counted: set<AuditRow>, removed: set<AuditRow>, didDelete: bool, late: set<AuditRow>,
    disturbed: bool, foreign: bool)

  /** `mixed` once two prunes were writing it at a time. */
  datatype File = File(rows: seq<AuditRow>, synced: bool, mixed: bool)

  /** The archive directory: names lead to files, and a prune holds a file, not its name. A
      file goes by the number of the prune that created it. */
  datatype Disk = Disk(dir: map<string, nat>, files: map<nat, File>)

  /** `created` holds every row there ever was; ids are never used twice. */
  datatype State = State(
    rows: seq<AuditRow>, disk: Disk, runs: map<nat, Run>, created: set<AuditRow>)

  const INITIAL := State([], Disk(map[], map[]), map[], {})

  datatype Event =
    | Insert(row: AuditRow)
    | Begin(run: nat, cutoff: string)
    | Count(run: nat)
    | Open(run: nat, file: string)
    | Page(run: nat)
    | Spill(run: nat, n: nat)
    | Sync(run: nat)
    | Verify(run: nat)
    | DeleteOld(run: nat)
    | PostCount(run: nat, own: AuditRow)
    | Fail(run: nat)
    | BeginForeign(run: nat, candidates: nat)
    | PageForeign(run: nat, page: seq<AuditRow>, last: bool)

  // ---------- Steps ----------

  function Old(rows: seq<AuditRow>, cutoff: string): set<AuditRow> {
    set r | r in rows && Before(r, cutoff)
  }

  /** The archive walk has passed the place of this row. */
  predicate Behind(phase: Phase, row: AuditRow) {
    match phase
    case Archiving(cursor) => cursor.Some? && !Lexical.Less(cursor.value, row.id)
    case Archived => true
    case Synced => true
    case Verified => true
    case Began => false
    case Counted => false
    case Deleted => false
    case Finished => false
    case Stopped => false
  }

  function NoteInsert(run: Run, row: AuditRow): Run {
    if Before(row, run.cutoff) && Behind(run.phase, row) then run.(late := run.late + {row}) else run
  }

  predicate IdUsed(created: set<AuditRow>, id: string) {
    exists r :: r in created && r.id == id
  }

  function InsertRow(s: State, row: AuditRow): State {
    if IdUsed(s.created, row.id) then s
    else s.(rows := s.rows + [row], created := s.created + {row},
      runs := map k | k in s.runs :: NoteInsert(s.runs[k], row))
  }

  function SetRun(s: State, k: nat, run: Run): State {
    s.(runs := s.runs[k := run])
  }

  function CountStep(s: State, k: nat, run: Run): State {
    SetRun(s, k, run.(phase := Counted,
      candidates := |Candidates(s.rows, run.cutoff)|, counted := Old(s.rows, run.cutoff)))
  }

  function Started(k: nat, cutoff: string): Run {
    Run(cutoff, "", k, Began, 0, 0, 0, [], 0, 0, {}, {}, false, {}, false, false)
  }

  /** No row of this table is older than its empty cutoff. */
  function StartedForeign(k: nat, candidates: nat): Run {
    Run("", "", k, Counted, candidates, 0, 0, [], 0, 0, {}, {}, false, {}, false, true)
  }

  predicate Writing(phase: Phase) {
    phase.Archiving? || phase.Archived?
  }

  /** A prune still writes the file. */
  predicate InUse(s: State, inode: nat) {
    exists j :: j in s.runs && Writing(s.runs[j].phase) && s.runs[j].inode == inode
  }

  /** `File::create`: an existing file of that name is truncated, under whoever writes it; else
      the name is given to a new file. */
  function OpenStep(s: State, k: nat, run: Run, file: string): State {
    var inode := if file in s.disk.dir then s.disk.dir[file] else k;
    SetRun(s, k, run.(
      phase := Archiving(None), file := file, inode := inode, archived := 0, written := 0,
      pending := [])).(
        disk := Disk(
          s.disk.dir[file := inode],
          s.disk.files[inode := File([], false, file in s.disk.dir && InUse(s, inode))]))
  }

  /** A page goes to the writer's buffer. */
  function PageStep(s: State, k: nat, run: Run): State
    requires run.phase.Archiving?
  {
    var page := PageBefore(s.rows, run.cutoff, ARCHIVE_PAGE, run.phase.cursor);
    var next := NextBefore(page, ARCHIVE_PAGE);
    var phase := if next.Some? then Archiving(next) else Archived;
    SetRun(s, k, run.(
      phase := phase, archived := run.archived + |page|, pending := run.pending + page))
  }

  /** A page of another store's rows; its walk keeps its cursor to itself. */
  function PageForeignStep(s: State, k: nat, run: Run, page: seq<AuditRow>, last: bool): State {
    SetRun(s, k, run.(
      phase := if last then Archived else run.phase, archived := run.archived + |page|,
      pending := run.pending + page))
  }

  /** A write replaces what lies at its position; a gap before it holds no rows. */
  function Overwrite(rows: seq<AuditRow>, at: nat, written: seq<AuditRow>): seq<AuditRow> {
    Take(at, rows) + written + if at + |written| <= |rows| then rows[at + |written|..] else []
  }

  /** The first `n` rows of the buffer reach the file: when it is full, or when a prune fails
      and its writer is dropped. */
  function SpillStep(s: State, k: nat, run: Run, n: nat): State
    requires run.inode in s.disk.files && n <= |run.pending|
  {
    var file := s.disk.files[run.inode];
    SetRun(s, k, run.(written := run.written + n, pending := run.pending[n..])).(
      disk := s.disk.(files := s.disk.files[run.inode :=
        File(Overwrite(file.rows, run.written, run.pending[..n]), false, file.mixed)]))
  }

  /** The rest of the buffer is flushed, and the file fsynced. */
  function SyncStep(s: State, k: nat, run: Run): State
    requires run.inode in s.disk.files
  {
    var file := s.disk.files[run.inode];
    SetRun(s, k, run.(phase := Synced, written := run.written + |run.pending|, pending := [])).(
      disk := s.disk.(files := s.disk.files[run.inode :=
        File(Overwrite(file.rows, run.written, run.pending), true, file.mixed)]))
  }

  /** A wrong count removes the name, whatever file it leads to, and stops the prune. */
  function VerifyStep(s: State, k: nat, run: Run): State {
    if run.archived == run.candidates then SetRun(s, k, run.(phase := Verified))
    else SetRun(s, k, run.(phase := Stopped)).(disk := s.disk.(dir := s.disk.dir - {run.file}))
  }

  /** From its count on, until it has counted again after its delete. */
  predicate InProgress(phase: Phase) {
    !phase.Began? && !phase.Finished? && !phase.Stopped?
  }

  function NoteDelete(run: Run): Run {
    if InProgress(run.phase) then run.(disturbed := true) else run
  }

  function DeleteStep(s: State, k: nat, run: Run): State {
    s.(rows := Filter(NotOlderThan(run.cutoff), s.rows),
      runs := (map j | j in s.runs :: NoteDelete(s.runs[j]))[k := run.(phase := Deleted,
        deleted := |Candidates(s.rows, run.cutoff)|,
        removed := Old(s.rows, run.cutoff), didDelete := true)])
  }

  /** The post-delete count, then the prune's own entry. */
  function PostCountStep(s: State, k: nat, run: Run, own: AuditRow): State {
    InsertRow(SetRun(s, k, run.(phase := Finished, postCount := |Candidates(s.rows, run.cutoff)|)), own)
  }

  /** A step whose turn it is not changes nothing. */
  function Apply(s: State, e: Event): State {
    match e
    case Insert(row) => InsertRow(s, row)
    case Begin(k, cutoff) =>
      if k in s.runs then s
      else SetRun(s, k, Started(k, cutoff))
    case Count(k) =>
      if k in s.runs && s.runs[k].phase.Began? then CountStep(s, k, s.runs[k]) else s
    case Open(k, file) =>
      if k in s.runs && s.runs[k].phase.Counted? then OpenStep(s, k, s.runs[k], file) else s
    case Page(k) =>
      if k in s.runs && s.runs[k].phase.Archiving? && !s.runs[k].foreign then
        PageStep(s, k, s.runs[k])
      else s
    case Spill(k, n) =>
      if k in s.runs && Writing(s.runs[k].phase) && s.runs[k].inode in s.disk.files
        && n <= |s.runs[k].pending|
      then SpillStep(s, k, s.runs[k], n)
      else s
    case Sync(k) =>
      if k in s.runs && s.runs[k].phase.Archived? && s.runs[k].inode in s.disk.files then
        SyncStep(s, k, s.runs[k])
      else s
    case Verify(k) =>
      if k in s.runs && s.runs[k].phase.Synced? then VerifyStep(s, k, s.runs[k]) else s
    case DeleteOld(k) =>
      if k in s.runs && s.runs[k].phase.Verified? && !s.runs[k].foreign then
        DeleteStep(s, k, s.runs[k])
      else s
    case PostCount(k, own) =>
      if k in s.runs && s.runs[k].phase.Deleted? then PostCountStep(s, k, s.runs[k], own) else s
    case Fail(k) =>
      if k in s.runs then SetRun(s, k, s.runs[k].(phase := Stopped)) else s
    case BeginForeign(k, candidates) =>
      if k in s.runs then s else SetRun(s, k, StartedForeign(k, candidates))
    case PageForeign(k, page, last) =>
      if k in s.runs && s.runs[k].phase.Archiving? && s.runs[k].foreign then
        PageForeignStep(s, k, s.runs[k], page, last)
      else s
  }

  /** The state that a schedule leads to from a given one. */
  function Then(s: State, events: seq<Event>): State {
    if events == [] then s else Apply(Then(s, events[..|events| - 1]), events[|events| - 1])
  }

  function After(events: seq<Event>): State {
    Then(INITIAL, events)
  }

  lemma ThenOneMore(s: State, events: seq<Event>, e: Event)
    ensures Then(s, events + [e]) == Apply(Then(s, events), e)
  {
    assert (events + [e])[..|events|] == events;
  }

  // ---------- What holds of the table, the files and each prune ----------

  /** Archive files have distinct names: a prune opens a file only under a new name. */
  predicate NewName(s: State, e: Event) {
    e.Open? ==> e.file !in s.disk.dir && forall k :: k in s.runs ==> s.runs[k].file != e.file
  }

  /** From this state on, every step of the schedule follows the rule. */
  ghost predicate Obeys(s: State, events: seq<Event>, rule: (State, Event) -> bool) {
    forall i :: 0 <= i < |events| ==> rule(Then(s, events[..i]), events[i])
  }

  ghost predicate Respects(events: seq<Event>, rule: (State, Event) -> bool) {
    Obeys(INITIAL, events, rule)
  }

  lemma ObeysOneMore(s: State, front: seq<Event>, e: Event, rule: (State, Event) -> bool)
    ensures Obeys(s, front + [e], rule) <==> Obeys(s, front, rule) && rule(Then(s, front), e)
  {
    var events := front + [e];
    assert events[..|front|] == front && events[|front|] == e;
    assert forall i :: 0 <= i < |front| ==> events[..i] == front[..i] && events[i] == front[i];
    if Obeys(s, events, rule) {
      assert rule(Then(s, events[..|front|]), events[|front|]);
      forall i | 0 <= i < |front|
        ensures rule(Then(s, front[..i]), front[i])
      {
        assert rule(Then(s, events[..i]), events[i]);
      }
    }
    if Obeys(s, front, rule) && rule(Then(s, front), e) {
      forall i | 0 <= i < |events|
        ensures rule(Then(s, events[..i]), events[i])
      {
        assert i < |front| ==> rule(Then(s, front[..i]), front[i]);
      }
    }
  }

  predicate Walking(phase: Phase) {
    phase.Archiving? || phase.Archived? || phase.Synced? || phase.Verified?
  }

  ghost predicate Distinct(rows: seq<AuditRow>, created: set<AuditRow>) {
    && UniqueIds(rows)
    && (forall r :: r in rows ==> r in created)
    && (forall x, y :: x in created && y in created && x.id == y.id ==> x == y)
  }

  /** What a walking prune has archived: the old rows behind the walk, each once; the only
      ones missing were created behind it. */
  ghost predicate ArchivesWalked(
    rows: seq<AuditRow>, created: set<AuditRow>, run: Run, archive: seq<AuditRow>)
  {
    && run.archived == |archive| && NoDuplicates(archive)
    && (forall r :: r in archive ==> r in created && Before(r, run.cutoff) && Behind(run.phase, r))
    && (forall r :: r in rows && Before(r, run.cutoff) && Behind(run.phase, r) ==>
      r in archive || r in run.late)
    && (forall r :: r in run.late ==> r !in archive && r in created && Behind(run.phase, r))
  }

  /** The file that a prune holds is the one its name leads to. */
  predicate Linked(disk: Disk, run: Run) {
    run.file in disk.dir && disk.dir[run.file] == run.inode && run.inode in disk.files
  }

  /** A file that is durable and was never written by two prunes at a time. */
  predicate Intact(file: File) {
    file.synced && !file.mixed
  }

  /** The file of a prune that has deleted is durable and lacks, of the deleted rows, those
      created behind the walk and no others. */
  ghost predicate HoldsDeleted(disk: Disk, run: Run) {
    && Linked(disk, run) && Intact(disk.files[run.inode])
    && forall r :: r in run.removed ==> (r in disk.files[run.inode].rows <==> r !in run.late)
  }

  /** The file and the buffer of a walking prune hold what it has archived. */
  ghost predicate Writes(rows: seq<AuditRow>, disk: Disk, created: set<AuditRow>, run: Run) {
    && Linked(disk, run) && !disk.files[run.inode].mixed
    && run.written == |disk.files[run.inode].rows|
    && ArchivesWalked(rows, created, run, disk.files[run.inode].rows + run.pending)
  }

  ghost predicate RunOk(rows: seq<AuditRow>, disk: Disk, created: set<AuditRow>, run: Run) {
    && (Walking(run.phase) ==> run.file != "" && !run.didDelete)
    && (Walking(run.phase) && !run.foreign ==> Writes(rows, disk, created, run))
    && ((run.phase.Synced? || run.phase.Verified?) && !run.foreign ==>
      disk.files[run.inode].synced && run.pending == [])
    && (run.foreign ==> run.cutoff == "" && !run.didDelete && !run.phase.Began? && !run.phase.Deleted?)
    && (run.phase.Began? || run.phase.Counted? ==> run.file == "" && !run.didDelete)
    && (run.phase.Began? || run.phase.Counted? ==> run.late == {})
    && (if run.didDelete then HoldsDeleted(disk, run) else run.removed == {})
  }

  /** Every prune has a name and a file of its own. */
  ghost predicate DistinctNames(runs: map<nat, Run>) {
    && (forall k, j :: k in runs && j in runs && k != j && runs[k].file != "" ==>
      runs[k].file != runs[j].file)
    && forall k :: k in runs ==> runs[k].inode == k
  }

  /** No row is lost from sight: it is in the table or some prune deleted it. */
  ghost predicate Conserved(s: State) {
    forall r :: r in s.created ==> r in s.rows || exists k :: k in s.runs && r in s.runs[k].removed
  }

  ghost predicate Consistent(s: State) {
    && Distinct(s.rows, s.created)
    && DistinctNames(s.runs)
    && Conserved(s)
    && forall k :: k in s.runs ==> RunOk(s.rows, s.disk, s.created, s.runs[k])
  }

  // ---------- Every step keeps it ----------

  /** What a page adds to an archive, whatever other prunes do to the table in between. */
  lemma PageFacts(rows: seq<AuditRow>, cutoff: string, limit: nat, cursor: Option<string>)
    requires UniqueIds(rows) && limit >= 1
    ensures
      var page := PageBefore(rows, cutoff, limit, cursor);
      && NoDuplicates(page)
      && (forall r :: r in page ==> r in rows && Before(r, cutoff) && PastId(cursor, r))
      && (|page| == limit ==> forall r :: r in page ==> !Lexical.Less(page[limit - 1].id, r.id))
      && (forall r :: r in rows && Before(r, cutoff) && PastId(cursor, r) ==>
        r in page || (|page| == limit && Lexical.Less(page[limit - 1].id, r.id)))
  {
    var wanted := (r: AuditRow) => Before(r, cutoff) && PastId(cursor, r);
    var table := set r | r in rows;
    IdsAreOrdered(rows, table);
    SortedFilter(IdBefore, wanted, rows, table);
    var all := Sort(IdBefore, Filter(wanted, rows));
    AscendingNoDuplicates(IdBefore, all, table);
    var page := PageBefore(rows, cutoff, limit, cursor);
    PrefixOfAscending(all, limit);
  }

  lemma PrefixOfAscending(all: seq<AuditRow>, limit: nat)
    requires Ascending(IdBefore, all) && limit >= 1
    ensures
      var page := Take(limit, all);
      && (forall r :: r in page ==> r in all)
      && (|page| == limit ==> forall r :: r in page ==> !Lexical.Less(page[limit - 1].id, r.id))
      && (forall r :: r in all ==>
        r in page || (|page| == limit && Lexical.Less(page[limit - 1].id, r.id)))
  {
    var page := Take(limit, all);
    forall r | r in page && |page| == limit
      ensures !Lexical.Less(page[limit - 1].id, r.id)
    {
      var k :| 0 <= k < |page| && page[k] == r;
      if k < limit - 1 {
        assert IdBefore(all[k], all[limit - 1]);
        Lexical.Asymmetric(all[k].id, all[limit - 1].id);
      }
      Lexical.Irreflexive(r.id);
    }
    forall r | r in all
      ensures r in page || (|page| == limit && Lexical.Less(page[limit - 1].id, r.id))
    {
      var k :| 0 <= k < |all| && all[k] == r;
      if k < |page| {
        assert page[k] == r;
      } else {
        assert IdBefore(all[limit - 1], all[k]);
      }
    }
  }

  lemma InsertedOk(
    rows: seq<AuditRow>, disk: Disk, created: set<AuditRow>, run: Run, row: AuditRow)
    requires RunOk(rows, disk, created, run) && row !in created
    ensures RunOk(rows + [row], disk, created + {row}, NoteInsert(run, row))
  {
    assert !Before(row, "");
  }

  lemma ShrunkOk(
    rows: seq<AuditRow>, rows': seq<AuditRow>, disk: Disk, created: set<AuditRow>, run: Run)
    requires RunOk(rows, disk, created, run) && forall r :: r in rows' ==> r in rows
    ensures RunOk(rows', disk, created, NoteDelete(run))
  {
  }

  /** What a prune holds is as it was. */
  predicate SameFile(disk: Disk, disk': Disk, run: Run) {
    Linked(disk, run) ==> Linked(disk', run) && disk'.files[run.inode] == disk.files[run.inode]
  }

  lemma OtherFileOk(rows: seq<AuditRow>, disk: Disk, disk': Disk, created: set<AuditRow>, run: Run)
    requires RunOk(rows, disk, created, run) && SameFile(disk, disk', run)
    ensures RunOk(rows, disk', created, run)
  {
  }

  lemma PageOk(
    rows: seq<AuditRow>, created: set<AuditRow>, run: Run, archive: seq<AuditRow>,
    page: seq<AuditRow>, phase: Phase)
    requires UniqueIds(rows) && forall r :: r in rows ==> r in created
    requires run.phase.Archiving? && ArchivesWalked(rows, created, run, archive)
    requires page == PageBefore(rows, run.cutoff, ARCHIVE_PAGE, run.phase.cursor)
    requires
      var next := NextBefore(page, ARCHIVE_PAGE);
      phase == if next.Some? then Archiving(next) else Archived
    ensures ArchivesWalked(
      rows, created, run.(phase := phase, archived := run.archived + |page|), archive + page)
  {
    PageFacts(rows, run.cutoff, ARCHIVE_PAGE, run.phase.cursor);
    var cursor := run.phase.cursor;
    NoDuplicatesAppend(archive, page);
    forall r | r in archive || r in run.late
      ensures Behind(phase, r)
    {
      if phase.Archiving? {
        WalkAdvances(cursor, page[ARCHIVE_PAGE - 1], r);
      }
    }
  }

  /** What was behind the old cursor is behind the new one. */
  lemma WalkAdvances(cursor: Option<string>, last: AuditRow, r: AuditRow)
    requires cursor.Some? && !Lexical.Less(cursor.value, r.id)
    requires PastId(cursor, last)
    ensures !Lexical.Less(last.id, r.id)
  {
    if Lexical.Less(last.id, r.id) {
      Lexical.Transitive(cursor.value, last.id, r.id);
    }
  }

  lemma InsertKeepsOk(s: State, row: AuditRow)
    requires Consistent(s)
    ensures Consistent(InsertRow(s, row))
  {
    var t := InsertRow(s, row);
    if !IdUsed(s.created, row.id) {
      forall k | k in t.runs
        ensures RunOk(t.rows, t.disk, t.created, t.runs[k])
      {
        InsertedOk(s.rows, s.disk, s.created, s.runs[k], row);
      }
      SameNames(s.runs, t.runs);
      InsertConserves(s, row, t);
    }
  }

  lemma InsertConserves(s: State, row: AuditRow, t: State)
    requires Conserved(s) && t == InsertRow(s, row)
    ensures Conserved(t)
  {
    forall r | r in t.created
      ensures r in t.rows || exists k :: k in t.runs && r in t.runs[k].removed
    {
      if r in s.created {
        if r !in s.rows {
          var k :| k in s.runs && r in s.runs[k].removed;
          assert r in t.runs[k].removed;
        }
      } else {
        assert t.rows[|s.rows|] == row;
      }
    }
  }

  /** A step of one prune that leaves the table alone. */
  lemma RunStepKeepsOk(s: State, k: nat, run: Run, disk: Disk)
    requires Consistent(s) && run.inode == k
    requires run.file != "" ==> forall j :: j in s.runs && j != k ==> s.runs[j].file != run.file
    requires forall j :: j in s.runs && j != k ==> SameFile(s.disk, disk, s.runs[j])
    requires RunOk(s.rows, disk, s.created, run)
    requires k in s.runs ==> run.removed == s.runs[k].removed
    ensures Consistent(SetRun(s, k, run).(disk := disk))
  {
    var t := SetRun(s, k, run).(disk := disk);
    forall j | j in t.runs
      ensures RunOk(t.rows, t.disk, t.created, t.runs[j])
    {
      if j != k {
        OtherFileOk(s.rows, s.disk, disk, s.created, s.runs[j]);
      }
    }
    forall r | r in t.created && r !in t.rows
      ensures exists j :: j in t.runs && r in t.runs[j].removed
    {
      var j :| j in s.runs && r in s.runs[j].removed;
      assert r in t.runs[j].removed;
    }
  }

  /** The prune that deletes: all old rows were behind its walk. */
  lemma DeletedRunOk(
    rows: seq<AuditRow>, rows': seq<AuditRow>, disk: Disk, created: set<AuditRow>, run: Run, run': Run)
    requires RunOk(rows, disk, created, run) && run.phase.Verified? && !run.foreign
    requires run' == run.(phase := Deleted, deleted := run'.deleted,
      removed := Old(rows, run.cutoff), didDelete := true)
    ensures RunOk(rows', disk, created, run')
  {
    var archive := disk.files[run.inode].rows;
    assert archive + [] == archive;
  }

  lemma DeleteKeepsOk(s: State, k: nat)
    requires Consistent(s) && k in s.runs && s.runs[k].phase.Verified? && !s.runs[k].foreign
    ensures Consistent(DeleteStep(s, k, s.runs[k]))
  {
    var run, t := s.runs[k], DeleteStep(s, k, s.runs[k]);
    DistinctAfterDelete(s.rows, s.created, run.cutoff);
    SameNames(s.runs, t.runs);
    forall j | j in t.runs
      ensures RunOk(t.rows, t.disk, t.created, t.runs[j])
    {
      RunAfterDeleteOk(s, k, t, j);
    }
    DeleteConserves(s, k, t);
  }

  lemma RunAfterDeleteOk(s: State, k: nat, t: State, j: nat)
    requires k in s.runs && s.runs[k].phase.Verified? && !s.runs[k].foreign
    requires j in s.runs && RunOk(s.rows, s.disk, s.created, s.runs[j])
    requires forall r :: r in t.rows ==> r in s.rows
    requires t == DeleteStep(s, k, s.runs[k])
    ensures RunOk(t.rows, t.disk, t.created, t.runs[j])
  {
    if j != k {
      ShrunkOk(s.rows, t.rows, s.disk, s.created, s.runs[j]);
    } else {
      DeletedRunOk(s.rows, t.rows, s.disk, s.created, s.runs[k], t.runs[k]);
    }
  }

  lemma SameNames(runs: map<nat, Run>, runs': map<nat, Run>)
    requires DistinctNames(runs) && runs'.Keys == runs.Keys
    requires forall j :: j in runs ==> runs'[j].file == runs[j].file && runs'[j].inode == runs[j].inode
    ensures DistinctNames(runs')
  {
  }

  lemma DistinctAfterDelete(rows: seq<AuditRow>, created: set<AuditRow>, cutoff: string)
    requires Distinct(rows, created)
    ensures Distinct(Filter(NotOlderThan(cutoff), rows), created)
    ensures forall r :: r in Filter(NotOlderThan(cutoff), rows) ==> r in rows
  {
    FilterMembers(NotOlderThan(cutoff), rows);
    FilteredIdsUnique(NotOlderThan(cutoff), rows);
  }

  lemma DeleteConserves(s: State, k: nat, t: State)
    requires Conserved(s) && k in s.runs && s.runs[k].removed == {}
    requires t == DeleteStep(s, k, s.runs[k])
    ensures Conserved(t)
  {
    FilterMembers(NotOlderThan(s.runs[k].cutoff), s.rows);
    forall r | r in t.created && r !in t.rows
      ensures exists j :: j in t.runs && r in t.runs[j].removed
    {
      if r in s.rows {
        assert r in t.runs[k].removed;
      } else {
        var j :| j in s.runs && r in s.runs[j].removed;
        assert r in t.runs[j].removed;
      }
    }
  }

  lemma FilteredIdsUnique(p: AuditRow -> bool, rows: seq<AuditRow>)
    requires UniqueIds(rows)
    ensures UniqueIds(Filter(p, rows))
  {
    var id := (r: AuditRow) => r.id;
    assert KeysDiffer(id, rows);
    FilterKeepsKeys(p, id, rows);
    var kept := Filter(p, rows);
    assert forall i :: 0 <= i < |kept| ==> id(kept[i]) == kept[i].id;
  }

  lemma PageKeepsOk(s: State, k: nat)
    requires Consistent(s) && k in s.runs && s.runs[k].phase.Archiving? && !s.runs[k].foreign
    ensures Consistent(PageStep(s, k, s.runs[k]))
  {
    var t := PageStep(s, k, s.runs[k]);
    PagedRunOk(s.rows, s.disk, s.created, s.runs[k], t.runs[k]);
    RunStepKeepsOk(s, k, t.runs[k], s.disk);
  }

  lemma PagedRunOk(
    rows: seq<AuditRow>, disk: Disk, created: set<AuditRow>, run: Run, run': Run)
    requires RunOk(rows, disk, created, run) && run.phase.Archiving? && !run.foreign
    requires UniqueIds(rows) && forall r :: r in rows ==> r in created
    requires
      var page := PageBefore(rows, run.cutoff, ARCHIVE_PAGE, run.phase.cursor);
      var next := NextBefore(page, ARCHIVE_PAGE);
      run' == run.(
        phase := if next.Some? then Archiving(next) else Archived,
        archived := run.archived + |page|, pending := run.pending + page)
    ensures RunOk(rows, disk, created, run')
  {
    var page := PageBefore(rows, run.cutoff, ARCHIVE_PAGE, run.phase.cursor);
    var file := disk.files[run.inode].rows;
    PageOk(rows, created, run, file + run.pending, page, run'.phase);
    assert (file + run.pending) + page == file + run'.pending;
    BufferDoesNotMatter(
      rows, created, run.(phase := run'.phase, archived := run'.archived), run',
      file + run'.pending);
  }

  lemma BufferDoesNotMatter(
    rows: seq<AuditRow>, created: set<AuditRow>, run: Run, run': Run, archive: seq<AuditRow>)
    requires ArchivesWalked(rows, created, run, archive)
    requires run' == run.(phase := run'.phase, written := run'.written, pending := run'.pending)
    requires run'.phase == run.phase || (run.phase.Archived? && run'.phase.Synced?)
    ensures ArchivesWalked(rows, created, run', archive)
  {
  }

  /** A prune that writes alone appends: file and buffer together stay as they were. */
  lemma WrittenRunOk(
    rows: seq<AuditRow>, disk: Disk, created: set<AuditRow>, run: Run, run': Run, disk': Disk,
    n: nat)
    requires RunOk(rows, disk, created, run) && Writing(run.phase) && n <= |run.pending|
    requires run.inode in disk.files
    requires run' == run.(
      phase := run'.phase, written := run.written + n, pending := run.pending[n..])
    requires run'.phase == run.phase || (run.phase.Archived? && run'.phase.Synced?)
    requires
      var file := disk.files[run.inode];
      disk' == disk.(files := disk.files[run.inode :=
        File(Overwrite(file.rows, run.written, run.pending[..n]), run'.phase.Synced?, file.mixed)])
    requires run'.phase.Synced? ==> n == |run.pending|
    ensures RunOk(rows, disk', created, run')
  {
    if !run.foreign {
      var file := disk.files[run.inode].rows;
      assert Overwrite(file, run.written, run.pending[..n]) == file + run.pending[..n];
      assert (file + run.pending[..n]) + run.pending[n..] == file + run.pending;
      BufferDoesNotMatter(rows, created, run, run', file + run.pending);
    }
  }

  lemma SpillKeepsOk(s: State, k: nat, n: nat)
    requires Consistent(s) && k in s.runs && Writing(s.runs[k].phase) && n <= |s.runs[k].pending|
    requires s.runs[k].inode in s.disk.files
    ensures Consistent(SpillStep(s, k, s.runs[k], n))
  {
    var run := s.runs[k];
    assert RunOk(s.rows, s.disk, s.created, run);
    var t := SpillStep(s, k, run, n);
    WrittenRunOk(s.rows, s.disk, s.created, run, t.runs[k], t.disk, n);
    RunStepKeepsOk(s, k, t.runs[k], t.disk);
  }

  lemma SyncKeepsOk(s: State, k: nat)
    requires Consistent(s) && k in s.runs && s.runs[k].phase.Archived?
    requires s.runs[k].inode in s.disk.files
    ensures Consistent(SyncStep(s, k, s.runs[k]))
  {
    var run := s.runs[k];
    assert RunOk(s.rows, s.disk, s.created, run);
    var t := SyncStep(s, k, run);
    assert run.pending[..|run.pending|] == run.pending && run.pending[|run.pending|..] == [];
    WrittenRunOk(s.rows, s.disk, s.created, run, t.runs[k], t.disk, |run.pending|);
    RunStepKeepsOk(s, k, t.runs[k], t.disk);
  }

  lemma CountKeepsOk(s: State, k: nat)
    requires Consistent(s) && k in s.runs && s.runs[k].phase.Began?
    ensures Consistent(CountStep(s, k, s.runs[k]))
  {
    var run := s.runs[k];
    RunStepKeepsOk(s, k, run.(phase := Counted,
      candidates := |Candidates(s.rows, run.cutoff)|, counted := Old(s.rows, run.cutoff)), s.disk);
  }

  lemma PostCountKeepsOk(s: State, k: nat, own: AuditRow)
    requires Consistent(s) && k in s.runs && s.runs[k].phase.Deleted?
    ensures Consistent(PostCountStep(s, k, s.runs[k], own))
  {
    var run := s.runs[k].(
      phase := Finished, postCount := |Candidates(s.rows, s.runs[k].cutoff)|);
    RunStepKeepsOk(s, k, run, s.disk);
    InsertKeepsOk(SetRun(s, k, run).(disk := s.disk), own);
  }

  lemma OpenKeepsOk(s: State, k: nat, file: string)
    requires Consistent(s) && k in s.runs && s.runs[k].phase.Counted? && file != ""
    requires NewName(s, Open(k, file))
    ensures Consistent(OpenStep(s, k, s.runs[k], file))
  {
    var t := OpenStep(s, k, s.runs[k], file);
    assert t.disk == Disk(s.disk.dir[file := k], s.disk.files[k := File([], false, false)]);
    RunStepKeepsOk(s, k, t.runs[k], t.disk);
  }

  lemma VerifyKeepsOk(s: State, k: nat)
    requires Consistent(s) && k in s.runs && s.runs[k].phase.Synced?
    ensures Consistent(VerifyStep(s, k, s.runs[k]))
  {
    var run, t := s.runs[k], VerifyStep(s, k, s.runs[k]);
    RunStepKeepsOk(s, k, t.runs[k], t.disk);
  }

  lemma StepKeepsOk(s: State, e: Event)
    requires Consistent(s) && NewName(s, e)
    ensures Consistent(Apply(s, e))
  {
    if Apply(s, e) != s {
      EffectKeepsOk(s, e, Apply(s, e));
    }
  }

  lemma EffectKeepsOk(s: State, e: Event, t: State)
    requires Consistent(s) && NewName(s, e) && t == Apply(s, e) && t != s
    ensures Consistent(t)
  {
    match e
    case Insert(row) => InsertKeepsOk(s, row);
    case Begin(k, cutoff) =>
      RunStepKeepsOk(s, k, Started(k, cutoff), s.disk);
    case Count(k) => CountKeepsOk(s, k);
    case Open(k, file) => OpenKeepsOk(s, k, file);
    case Page(k) => PageKeepsOk(s, k);
    case Spill(k, n) => SpillKeepsOk(s, k, n);
    case Sync(k) => SyncKeepsOk(s, k);
    case Verify(k) => VerifyKeepsOk(s, k);
    case DeleteOld(k) => DeleteKeepsOk(s, k);
    case PostCount(k, own) => PostCountKeepsOk(s, k, own);
    case Fail(k) => RunStepKeepsOk(s, k, s.runs[k].(phase := Stopped), s.disk);
    case BeginForeign(k, candidates) =>
      RunStepKeepsOk(s, k, StartedForeign(k, candidates), s.disk);
    case PageForeign(k, page, last) => RunStepKeepsOk(s, k, t.runs[k], s.disk);
  }

  lemma {:induction false} ReachableOk(events: seq<Event>)
    requires Respects(events, NewName)
    ensures Consistent(After(events))
  {
    if events != [] {
      var front := events[..|events| - 1];
      RespectsPrefix(events, NewName);
      ReachableOk(front);
      StepKeepsOk(After(front), events[|events| - 1]);
    }
  }

  lemma RespectsPrefix(events: seq<Event>, rule: (State, Event) -> bool)
    requires events != [] && Respects(events, rule)
    ensures Respects(events[..|events| - 1], rule)
    ensures rule(After(events[..|events| - 1]), events[|events| - 1])
  {
    assert events == events[..|events| - 1] + [events[|events| - 1]];
    ObeysOneMore(INITIAL, events[..|events| - 1], events[|events| - 1], rule);
  }

  /** Whatever happens in between, a prune that has deleted has a durable archive that lacks,
      of the rows it deleted, exactly those created behind its walk. */
  lemma DeletedRowsAreArchived(events: seq<Event>, k: nat)
    requires Respects(events, NewName)
    requires k in After(events).runs && After(events).runs[k].didDelete
    ensures
      var s := After(events);
      var run := s.runs[k];
      && Linked(s.disk, run) && Intact(s.disk.files[run.inode])
      && run.removed - (set r | r in s.disk.files[run.inode].rows) == run.removed * run.late
  {
    ReachableOk(events);
  }
}
