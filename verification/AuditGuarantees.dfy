/** What a prune guarantees when no old row is created behind its back: when every row that is
    created while a prune is in progress is newer than that prune's cutoff. */
module AuditGuarantees {
  import opened Outcomes
  import opened Tables
  import opened Audit
  import opened AuditSchedule

  /** A row created while a prune is in progress is not older than that prune's cutoff. */
  predicate NotBehind(s: State, row: AuditRow) {
    forall k :: k in s.runs && InProgress(s.runs[k].phase) ==> !Before(row, s.runs[k].cutoff)
  }

  predicate Timely(s: State, e: Event) {
    && (e.Insert? ==> NotBehind(s, e.row))
    && (e.PostCount? ==> NotBehind(s, e.own))
  }

  predicate Counting(phase: Phase) {
    phase.Counted? || Walking(phase)
  }

  ghost predicate Archives(archive: seq<AuditRow>, run: Run) {
    && NoDuplicates(archive) && |archive| == run.archived == run.candidates
    && forall r :: r in archive <==> r in run.counted
  }

  ghost predicate CountedOk(rows: seq<AuditRow>, files: map<nat, File>, run: Run) {
    !run.foreign ==>
    && run.late == {}
    && (Counting(run.phase) ==>
      && Old(rows, run.cutoff) <= run.counted && |run.counted| == run.candidates
      && (!run.disturbed ==> Old(rows, run.cutoff) == run.counted))
    && (Walking(run.phase) ==>
      run.inode in files && forall r :: r in files[run.inode].rows + run.pending ==> r in run.counted)
    && (run.phase.Verified? || run.didDelete ==>
      run.inode in files && Archives(files[run.inode].rows, run))
    && (run.didDelete ==> run.removed <= run.counted && |run.removed| == run.deleted)
    && (run.didDelete && !run.disturbed ==> run.removed == run.counted && run.deleted == run.candidates)
    && (run.phase.Deleted? ==> Old(rows, run.cutoff) == {})
    && (run.phase.Finished? ==> run.didDelete && run.postCount == 0)
    && (run.phase.Deleted? ==> run.didDelete)
  }

  ghost predicate AllCountedOk(s: State) {
    forall k :: k in s.runs ==> CountedOk(s.rows, s.disk.files, s.runs[k])
  }

  // ---------- Sets and counts ----------

  /** The count query counts the old rows. */
  lemma OldCount(rows: seq<AuditRow>, cutoff: string)
    requires UniqueIds(rows)
    ensures |Old(rows, cutoff)| == |Candidates(rows, cutoff)|
  {
    var all, table := Candidates(rows, cutoff), set r | r in rows;
    CandidatesAreOld(rows, cutoff);
    IdsAreOrdered(rows, table);
    AscendingNoDuplicates(IdBefore, all, table);
    SizeOfDistinct(all);
    assert (set r | r in all) == Old(rows, cutoff);
  }

  lemma SubsetOfSameSize(x: set<AuditRow>, y: set<AuditRow>)
    requires x <= y && |x| == |y|
    ensures x == y
  {
    assert |y - x| == |y| - |x|;
    assert y == x + (y - x);
  }

  // ---------- Every step keeps it ----------

  lemma InsertedCounted(rows: seq<AuditRow>, files: map<nat, File>, run: Run, row: AuditRow)
    requires CountedOk(rows, files, run) && (InProgress(run.phase) ==> !Before(row, run.cutoff))
    ensures CountedOk(rows + [row], files, NoteInsert(run, row))
  {
    if InProgress(run.phase) {
      assert Old(rows + [row], run.cutoff) == Old(rows, run.cutoff);
    }
  }

  lemma InsertKeepsCounted(s: State, row: AuditRow)
    requires AllCountedOk(s) && NotBehind(s, row)
    ensures AllCountedOk(InsertRow(s, row))
  {
    forall k | k in s.runs
      ensures CountedOk(s.rows + [row], s.disk.files, NoteInsert(s.runs[k], row))
    {
      InsertedCounted(s.rows, s.disk.files, s.runs[k], row);
    }
  }

  lemma OtherCounted(
    rows: seq<AuditRow>, rows': seq<AuditRow>, files: map<nat, File>, files': map<nat, File>,
    run: Run)
    requires CountedOk(rows, files, run)
    requires Old(rows', run.cutoff) == Old(rows, run.cutoff)
    requires run.inode in files ==> run.inode in files' && files'[run.inode] == files[run.inode]
    ensures CountedOk(rows', files', run)
  {
  }

  lemma RunStepKeepsCounted(s: State, k: nat, run: Run, disk: Disk, t: State)
    requires AllCountedOk(s)
    requires forall j :: j in s.runs && j != k && s.runs[j].inode in s.disk.files ==>
      s.runs[j].inode in disk.files && disk.files[s.runs[j].inode] == s.disk.files[s.runs[j].inode]
    requires CountedOk(s.rows, disk.files, run) && t == SetRun(s, k, run).(disk := disk)
    ensures AllCountedOk(t)
  {
    forall j | j in t.runs && j != k
      ensures CountedOk(t.rows, t.disk.files, t.runs[j])
    {
      OtherCounted(s.rows, s.rows, s.disk.files, disk.files, s.runs[j]);
    }
  }

  lemma CountKeepsCounted(s: State, k: nat)
    requires Consistent(s) && AllCountedOk(s) && k in s.runs && s.runs[k].phase.Began?
    ensures AllCountedOk(CountStep(s, k, s.runs[k]))
  {
    var run := s.runs[k];
    OldCount(s.rows, run.cutoff);
    RunStepKeepsCounted(s, k, run.(phase := Counted,
      candidates := |Candidates(s.rows, run.cutoff)|, counted := Old(s.rows, run.cutoff)), s.disk,
      CountStep(s, k, run));
  }

  lemma PageKeepsCounted(s: State, k: nat)
    requires Consistent(s) && AllCountedOk(s)
    requires k in s.runs && s.runs[k].phase.Archiving? && !s.runs[k].foreign
    ensures AllCountedOk(PageStep(s, k, s.runs[k]))
  {
    var run, t := s.runs[k], PageStep(s, k, s.runs[k]);
    PageIsOld(s.rows, run.cutoff, ARCHIVE_PAGE, run.phase.cursor);
    PagedCounted(s.rows, s.disk.files, run, t.runs[k], PageBefore(
      s.rows, run.cutoff, ARCHIVE_PAGE, run.phase.cursor));
    RunStepKeepsCounted(s, k, t.runs[k], s.disk, t);
  }

  lemma OpenKeepsCounted(s: State, k: nat, file: string)
    requires Consistent(s) && AllCountedOk(s) && k in s.runs && s.runs[k].phase.Counted?
    requires NewName(s, Open(k, file))
    ensures AllCountedOk(OpenStep(s, k, s.runs[k], file))
  {
    var t := OpenStep(s, k, s.runs[k], file);
    RunStepKeepsCounted(s, k, t.runs[k], t.disk, t);
  }

  /** Alone, a write moves rows from the buffer to the file. */
  lemma WrittenCounted(
    rows: seq<AuditRow>, files: map<nat, File>, run: Run, run': Run, files': map<nat, File>, n: nat)
    requires CountedOk(rows, files, run) && Writing(run.phase) && !run.didDelete
    requires run.inode in files && n <= |run.pending|
    requires !run.foreign ==> run.written == |files[run.inode].rows|
    requires run' == run.(
      phase := run'.phase, written := run.written + n, pending := run.pending[n..])
    requires run'.phase == run.phase || run'.phase.Synced?
    requires run.inode in files' && files'[run.inode].rows ==
      Overwrite(files[run.inode].rows, run.written, run.pending[..n])
    ensures CountedOk(rows, files', run')
  {
    if !run.foreign {
      var file := files[run.inode].rows;
      assert files'[run.inode].rows + run'.pending == file + run.pending;
    }
  }

  lemma SpillKeepsCounted(s: State, k: nat, n: nat)
    requires Consistent(s) && AllCountedOk(s) && k in s.runs && Writing(s.runs[k].phase)
    requires s.runs[k].inode in s.disk.files && n <= |s.runs[k].pending|
    ensures AllCountedOk(SpillStep(s, k, s.runs[k], n))
  {
    var t := SpillStep(s, k, s.runs[k], n);
    assert RunOk(s.rows, s.disk, s.created, s.runs[k]);
    WrittenCounted(s.rows, s.disk.files, s.runs[k], t.runs[k], t.disk.files, n);
    RunStepKeepsCounted(s, k, t.runs[k], t.disk, t);
  }

  lemma SyncKeepsCounted(s: State, k: nat)
    requires Consistent(s) && AllCountedOk(s)
    requires k in s.runs && s.runs[k].phase.Archived? && s.runs[k].inode in s.disk.files
    ensures AllCountedOk(SyncStep(s, k, s.runs[k]))
  {
    var run, t := s.runs[k], SyncStep(s, k, s.runs[k]);
    assert RunOk(s.rows, s.disk, s.created, run);
    assert run.pending[..|run.pending|] == run.pending && run.pending[|run.pending|..] == [];
    WrittenCounted(s.rows, s.disk.files, run, t.runs[k], t.disk.files, |run.pending|);
    RunStepKeepsCounted(s, k, t.runs[k], t.disk, t);
  }

  lemma PageIsOld(rows: seq<AuditRow>, cutoff: string, limit: nat, cursor: Option<string>)
    requires UniqueIds(rows) && limit >= 1
    ensures forall r :: r in PageBefore(rows, cutoff, limit, cursor) ==> r in Old(rows, cutoff)
  {
    PageFacts(rows, cutoff, limit, cursor);
  }

  lemma PagedCounted(
    rows: seq<AuditRow>, files: map<nat, File>, run: Run, run': Run, page: seq<AuditRow>)
    requires CountedOk(rows, files, run) && run.phase.Archiving? && !run.didDelete && !run.foreign
    requires Writing(run'.phase)
    requires run' == run.(
      phase := run'.phase, archived := run'.archived, pending := run.pending + page)
    requires forall r :: r in page ==> r in Old(rows, run.cutoff)
    ensures CountedOk(rows, files, run')
  {
    assert files[run.inode].rows + run'.pending == (files[run.inode].rows + run.pending) + page;
  }

  /** The counts agree: then the archive, a part of what was counted, is all of it. */
  lemma VerifiedCounted(rows: seq<AuditRow>, disk: Disk, created: set<AuditRow>, run: Run)
    requires RunOk(rows, disk, created, run) && CountedOk(rows, disk.files, run)
    requires run.phase.Synced? && run.archived == run.candidates && !run.foreign
    ensures CountedOk(rows, disk.files, run.(phase := Verified))
  {
    var archive := disk.files[run.inode].rows;
    assert archive + run.pending == archive;
    SizeOfDistinct(archive);
    SubsetOfSameSize((set r | r in archive), run.counted);
    assert forall r :: r in archive <==> r in (set x | x in archive);
  }

  lemma VerifyKeepsCounted(s: State, k: nat)
    requires Consistent(s) && AllCountedOk(s) && k in s.runs && s.runs[k].phase.Synced?
    ensures AllCountedOk(VerifyStep(s, k, s.runs[k]))
  {
    var run, t := s.runs[k], VerifyStep(s, k, s.runs[k]);
    assert RunOk(s.rows, s.disk, s.created, run);
    if run.archived == run.candidates && !run.foreign {
      VerifiedCounted(s.rows, s.disk, s.created, run);
    }
    RunStepKeepsCounted(s, k, t.runs[k], t.disk, t);
  }

  lemma DeletedCounted(
    rows: seq<AuditRow>, rows': seq<AuditRow>, files: map<nat, File>, run: Run)
    requires CountedOk(rows, files, run) && run.phase.Verified? && !run.foreign && UniqueIds(rows)
    requires rows' == Filter(NotOlderThan(run.cutoff), rows)
    ensures CountedOk(rows', files, run.(phase := Deleted,
      deleted := |Candidates(rows, run.cutoff)|, removed := Old(rows, run.cutoff), didDelete := true))
  {
    FilterMembers(NotOlderThan(run.cutoff), rows);
    OldCount(rows, run.cutoff);
    assert Old(rows', run.cutoff) == {};
  }

  lemma ShrunkCounted(
    rows: seq<AuditRow>, rows': seq<AuditRow>, files: map<nat, File>, run: Run)
    requires CountedOk(rows, files, run) && forall r :: r in rows' ==> r in rows
    ensures CountedOk(rows', files, NoteDelete(run))
  {
    assert Old(rows', run.cutoff) <= Old(rows, run.cutoff);
  }

  lemma DeleteKeepsCounted(s: State, k: nat)
    requires Consistent(s) && AllCountedOk(s)
    requires k in s.runs && s.runs[k].phase.Verified? && !s.runs[k].foreign
    ensures AllCountedOk(DeleteStep(s, k, s.runs[k]))
  {
    var t := DeleteStep(s, k, s.runs[k]);
    FilterMembers(NotOlderThan(s.runs[k].cutoff), s.rows);
    forall j | j in t.runs
      ensures CountedOk(t.rows, t.disk.files, t.runs[j])
    {
      if j == k {
        DeletedCounted(s.rows, t.rows, s.disk.files, s.runs[k]);
      } else {
        ShrunkCounted(s.rows, t.rows, s.disk.files, s.runs[j]);
      }
    }
  }

  lemma PostCountKeepsCounted(s: State, k: nat, own: AuditRow)
    requires Consistent(s) && AllCountedOk(s) && k in s.runs && s.runs[k].phase.Deleted? && NotBehind(s, own)
    ensures AllCountedOk(PostCountStep(s, k, s.runs[k], own))
  {
    var run := s.runs[k].(phase := Finished, postCount := |Candidates(s.rows, s.runs[k].cutoff)|);
    OldCount(s.rows, run.cutoff);
    RunStepKeepsCounted(s, k, run, s.disk, SetRun(s, k, run));
    InsertKeepsCounted(SetRun(s, k, run), own);
  }

  lemma StepKeepsCounted(s: State, e: Event)
    requires Consistent(s) && AllCountedOk(s) && NewName(s, e) && Timely(s, e)
    ensures AllCountedOk(Apply(s, e))
  {
    if Apply(s, e) != s {
      EffectKeepsCounted(s, e, Apply(s, e));
    }
  }

  lemma EffectKeepsCounted(s: State, e: Event, t: State)
    requires Consistent(s) && AllCountedOk(s) && NewName(s, e) && Timely(s, e)
    requires t == Apply(s, e) && t != s
    ensures AllCountedOk(t)
  {
    match e
    case Insert(row) => InsertKeepsCounted(s, row);
    case Begin(k, cutoff) => RunStepKeepsCounted(s, k, t.runs[k], s.disk, t);
    case Count(k) => CountKeepsCounted(s, k);
    case Open(k, file) => OpenKeepsCounted(s, k, file);
    case Page(k) => PageKeepsCounted(s, k);
    case Spill(k, n) => SpillKeepsCounted(s, k, n);
    case Sync(k) => SyncKeepsCounted(s, k);
    case Verify(k) => VerifyKeepsCounted(s, k);
    case DeleteOld(k) => DeleteKeepsCounted(s, k);
    case PostCount(k, own) => PostCountKeepsCounted(s, k, own);
    case Fail(k) => RunStepKeepsCounted(s, k, t.runs[k], s.disk, t);
    case BeginForeign(k, _) => RunStepKeepsCounted(s, k, t.runs[k], s.disk, t);
    case PageForeign(k, _, _) => RunStepKeepsCounted(s, k, t.runs[k], s.disk, t);
  }

  lemma {:induction false} ReachableCounted(events: seq<Event>)
    requires Respects(events, NewName) && Respects(events, Timely)
    ensures AllCountedOk(After(events))
  {
    if events != [] {
      var front := events[..|events| - 1];
      RespectsPrefix(events, NewName);
      RespectsPrefix(events, Timely);
      ReachableOk(front);
      ReachableCounted(front);
      StepKeepsCounted(After(front), events[|events| - 1]);
    }
  }

  // ---------- The guarantees ----------

  /** A prune that has deleted archived exactly the rows it counted, each once, durably, and
      deleted none but those; if no other prune deleted meanwhile it deleted them all. */
  lemma TimelyPruneIsExact(events: seq<Event>, k: nat)
    requires Respects(events, NewName) && Respects(events, Timely)
    requires k in After(events).runs && After(events).runs[k].didDelete
    ensures
      var s := After(events);
      var run := s.runs[k];
      && Linked(s.disk, run) && Intact(s.disk.files[run.inode])
      && var archive := s.disk.files[run.inode].rows;
      && NoDuplicates(archive)
      && (forall r :: r in archive <==> r in run.counted)
      && |archive| == run.archived == run.candidates == |run.counted|
      && run.removed <= run.counted && run.deleted == |run.removed|
      && (run.phase.Finished? ==> run.postCount == 0)
      && (!run.disturbed ==> run.deleted == run.archived == run.candidates)
  {
    ReachableOk(events);
    ReachableCounted(events);
    var s := After(events);
    var archive := s.disk.files[s.runs[k].inode].rows;
    SizeOfDistinct(archive);
    assert (set r | r in archive) == s.runs[k].counted;
  }

  /** The name leads to a durable archive, written by one prune at a time, with the row. */
  predicate Holds(disk: Disk, file: string, r: AuditRow) {
    && file in disk.dir && disk.dir[file] in disk.files
    && Intact(disk.files[disk.dir[file]]) && r in disk.files[disk.dir[file]].rows
  }

  ghost predicate IsArchived(disk: Disk, r: AuditRow) {
    exists file :: Holds(disk, file, r)
  }

  /** The row is in the table or in such an archive. */
  ghost predicate Kept(s: State, r: AuditRow) {
    r in s.rows || IsArchived(s.disk, r)
  }

  /** Whatever steps happened, finished or not: a row that was ever created is in the table
      or in a durable archive. */
  lemma NoRowIsLost(events: seq<Event>, r: AuditRow)
    requires Respects(events, NewName) && Respects(events, Timely)
    requires r in After(events).created
    ensures Kept(After(events), r)
  {
    ReachableOk(events);
    ReachableCounted(events);
    var s := After(events);
    if r !in s.rows {
      var k :| k in s.runs && r in s.runs[k].removed;
      assert HoldsDeleted(s.disk, s.runs[k]);
      assert r in s.disk.files[s.runs[k].inode].rows;
      assert Holds(s.disk, s.runs[k].file, r);
    }
  }

  // ---------- What becomes of one row ----------

  /** The delete of a prune that has come to it, and whose cutoff the row is older than. */
  predicate Removes(s: State, e: Event, r: AuditRow) {
    && e.DeleteOld? && e.run in s.runs && s.runs[e.run].phase.Verified? && !s.runs[e.run].foreign
    && Before(r, s.runs[e.run].cutoff)
  }

  lemma StepRemovesExactly(s: State, e: Event, r: AuditRow)
    requires r in s.created
    ensures r in Apply(s, e).created
    ensures r in Apply(s, e).rows <==> r in s.rows && !Removes(s, e, r)
  {
    if e.DeleteOld? && e.run in s.runs && s.runs[e.run].phase.Verified? && !s.runs[e.run].foreign {
      FilterMember(NotOlderThan(s.runs[e.run].cutoff), s.rows, r);
    }
  }

  function Spares(r: AuditRow): (State, Event) -> bool {
    (s, e) => !Removes(s, e, r)
  }

  /** A row stays in the table exactly as long as no such delete comes about. */
  lemma {:induction false} StaysUntilRemoved(s: State, events: seq<Event>, r: AuditRow)
    requires r in s.rows && r in s.created
    ensures r in Then(s, events).created
    ensures r in Then(s, events).rows <==> Obeys(s, events, Spares(r))
  {
    if events != [] {
      var front, e := events[..|events| - 1], events[|events| - 1];
      assert events == front + [e];
      StaysUntilRemoved(s, front, r);
      ThenOneMore(s, front, e);
      ObeysOneMore(s, front, e, Spares(r));
      StepRemovesExactly(Then(s, front), e, r);
    }
  }

  lemma StepKeepsCutoffs(s: State, e: Event, j: nat)
    requires j in s.runs
    ensures j in Apply(s, e).runs && Apply(s, e).runs[j].cutoff == s.runs[j].cutoff
  {
    match e
    case Insert(row) => assert InsertRow(s, row).runs.Keys == s.runs.Keys;
    case DeleteOld(k) =>
      if k in s.runs {
        assert DeleteStep(s, k, s.runs[k]).runs.Keys == s.runs.Keys;
      }
    case _ =>
  }

  lemma {:induction false} CutoffsStay(s: State, events: seq<Event>, j: nat)
    requires j in s.runs
    ensures j in Then(s, events).runs && Then(s, events).runs[j].cutoff == s.runs[j].cutoff
  {
    if events != [] {
      var front := events[..|events| - 1];
      CutoffsStay(s, front, j);
      StepKeepsCutoffs(Then(s, front), events[|events| - 1], j);
    }
  }

  lemma OwnEntryIsThere(s: State, k: nat, own: AuditRow)
    requires k in s.runs && s.runs[k].phase.Deleted? && !IdUsed(s.created, own.id)
    ensures own in Apply(s, PostCount(k, own)).rows && own in Apply(s, PostCount(k, own)).created
  {
    assert Apply(s, PostCount(k, own)).rows == s.rows + [own];
  }

  /** A prune that was under way at some moment has the cutoff it had then. */
  lemma UnderWayKeepsOff(s: State, e: Event, t: State, later: seq<Event>, e': Event, r: AuditRow)
    requires t == Apply(s, e) && NotBehind(s, r) && Removes(Then(t, later), e', r)
    ensures !(e'.run in s.runs && InProgress(s.runs[e'.run].phase))
  {
    if e'.run in s.runs {
      StepKeepsCutoffs(s, e, e'.run);
      CutoffsStay(t, later, e'.run);
    }
  }

  /** A prune's own entry stays in the table, whatever happens after it is written, exactly
      until the delete of a prune with a cutoff beyond it; and no prune that was under way
      when it was written is one. */
  lemma OwnEntrySurvives(s: State, k: nat, own: AuditRow, t: State, events: seq<Event>)
    requires k in s.runs && s.runs[k].phase.Deleted? && Timely(s, PostCount(k, own))
    requires !IdUsed(s.created, own.id) && t == Apply(s, PostCount(k, own))
    ensures own in Then(t, events).rows <==> Obeys(t, events, Spares(own))
    ensures forall i :: 0 <= i < |events| && Removes(Then(t, events[..i]), events[i], own) ==>
      !(events[i].run in s.runs && InProgress(s.runs[events[i].run].phase))
  {
    OwnEntryIsThere(s, k, own);
    StaysUntilRemoved(t, events, own);
    forall i | 0 <= i < |events| && Removes(Then(t, events[..i]), events[i], own)
      ensures !(events[i].run in s.runs && InProgress(s.runs[events[i].run].phase))
    {
      UnderWayKeepsOff(s, PostCount(k, own), t, events[..i], events[i], own);
    }
  }
}
