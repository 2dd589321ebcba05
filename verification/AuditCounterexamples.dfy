/** What breaks without the two rules on schedules, by schedules that break one of them. */
module AuditCounterexamples {
  import opened Outcomes
  import opened Tables
  import opened Audit
  import opened AuditSchedule
  import opened AuditGuarantees
  import Lexical

  /** The row is not in the table, in no file of the directory and in no buffer. */
  ghost predicate Lost(s: State, r: AuditRow) {
    && r in s.created && r !in s.rows
    && (forall file :: file in s.disk.dir && s.disk.dir[file] in s.disk.files ==>
      r !in s.disk.files[s.disk.dir[file]].rows)
    && forall k :: k in s.runs ==> r !in s.runs[k].pending
  }

  /** The states a schedule goes through. */
  ghost predicate Trace(events: seq<Event>, states: seq<State>) {
    && |states| == |events| + 1 && states[0] == INITIAL
    && forall i {:trigger Apply(states[i], events[i])} :: 0 <= i < |events| ==>
      states[i + 1] == Apply(states[i], events[i])
  }

  lemma TraceExists(events: seq<Event>) returns (states: seq<State>)
    ensures Trace(events, states) && states[|events|] == After(events)
    ensures forall i :: 0 <= i <= |events| ==> states[i] == After(events[..i])
  {
    states := seq(|events| + 1, i requires 0 <= i <= |events| => After(events[..i]));
    forall i | 0 <= i < |events|
      ensures states[i + 1] == Apply(states[i], events[i])
    {
      assert events[..i + 1] == events[..i] + [events[i]];
      ThenOneMore(INITIAL, events[..i], events[i]);
    }
    assert events[..|events|] == events;
  }

  lemma Next(events: seq<Event>, states: seq<State>, i: nat, e: Event, s: State)
    requires Trace(events, states) && i < |events| && events[i] == e && states[i] == s
    ensures states[i + 1] == Apply(s, e)
  {
    assert states[i + 1] == Apply(states[i], events[i]);
  }

  /** A prune before its first write, when nothing has interfered: it counted `counted`, and
      has archived what is in its buffer. */
  function Archiver(
    cutoff: string, file: string, inode: nat, phase: Phase, counted: set<AuditRow>,
    pending: seq<AuditRow>)
    : Run
  {
    Run(
      cutoff, file, inode, phase, |counted|, |pending|, 0, pending, 0, 0, counted, {}, false, {}, false,
      false)
  }

  lemma CountsIn(events: seq<Event>, states: seq<State>, i: nat, s: State, k: nat, cutoff: string)
    requires Trace(events, states)
    requires i + 2 <= |events| && s == states[i] && k !in s.runs
    requires events[i] == Begin(k, cutoff) && events[i + 1] == Count(k)
    requires |Candidates(s.rows, cutoff)| == |Old(s.rows, cutoff)|
    ensures states[i + 2] ==
      SetRun(s, k, Archiver(cutoff, "", k, Counted, Old(s.rows, cutoff), []))
  {
    Next(events, states, i, Begin(k, cutoff), s);
    var s1 := SetRun(s, k, Archiver(cutoff, "", k, Began, {}, []));
    Next(events, states, i + 1, Count(k), s1);
    assert CountStep(s1, k, s1.runs[k]) ==
      SetRun(s, k, Archiver(cutoff, "", k, Counted, Old(s.rows, cutoff), []));
  }

  lemma OpensIn(
    events: seq<Event>, states: seq<State>, i: nat, s: State, k: nat, file: string, inode: nat,
    cutoff: string, counted: set<AuditRow>, mixed: bool)
    requires Trace(events, states)
    requires i < |events| && s == states[i] && events[i] == Open(k, file)
    requires k in s.runs && s.runs[k] == Archiver(cutoff, "", k, Counted, counted, [])
    requires inode == if file in s.disk.dir then s.disk.dir[file] else k
    requires mixed <==> file in s.disk.dir && InUse(s, inode)
    ensures states[i + 1] ==
      SetRun(s, k, Archiver(cutoff, file, inode, Archiving(None), counted, [])).(
        disk := Disk(s.disk.dir[file := inode], s.disk.files[inode := File([], false, mixed)]))
  {
    Next(events, states, i, Open(k, file), s);
  }

  /** The walk, when it fits one page. */
  lemma PagesIn(
    events: seq<Event>, states: seq<State>, i: nat, s: State, k: nat, cutoff: string, file: string,
    inode: nat, counted: set<AuditRow>, page: seq<AuditRow>)
    requires Trace(events, states)
    requires i < |events| && s == states[i] && events[i] == Page(k)
    requires k in s.runs && s.runs[k] == Archiver(cutoff, file, inode, Archiving(None), counted, [])
    requires page == PageBefore(s.rows, cutoff, ARCHIVE_PAGE, None) && |page| < ARCHIVE_PAGE
    ensures states[i + 1] == SetRun(s, k, Archiver(cutoff, file, inode, Archived, counted, page))
  {
    Next(events, states, i, Page(k), s);
    assert NextBefore(page, ARCHIVE_PAGE) == None;
    assert [] + page == page;
  }

  lemma SyncsIn(
    events: seq<Event>, states: seq<State>, i: nat, s: State, k: nat, cutoff: string, file: string,
    inode: nat, counted: set<AuditRow>, page: seq<AuditRow>)
    requires Trace(events, states)
    requires i < |events| && s == states[i] && events[i] == Sync(k)
    requires k in s.runs && s.runs[k] == Archiver(cutoff, file, inode, Archived, counted, page)
    requires inode in s.disk.files
    ensures
      var f := s.disk.files[inode];
      states[i + 1] == SetRun(s, k, SyncedRun(s.runs[k])).(disk := s.disk.(
        files := s.disk.files[inode := File(Overwrite(f.rows, 0, page), true, f.mixed)]))
  {
    Next(events, states, i, Sync(k), s);
  }

  function SyncedRun(run: Run): Run {
    run.(phase := Synced, written := run.written + |run.pending|, pending := [])
  }

  /** A fsynced prune whose counts agree deletes whatever old rows are there. */
  lemma DeletesIn(events: seq<Event>, states: seq<State>, i: nat, s: State, k: nat)
    requires Trace(events, states)
    requires i + 2 <= |events| && s == states[i]
    requires events[i] == Verify(k) && events[i + 1] == DeleteOld(k)
    requires k in s.runs && s.runs[k].phase.Synced? && s.runs[k].archived == s.runs[k].candidates
    requires !s.runs[k].foreign
    ensures
      var t := states[i + 2];
      && t.rows == Filter(NotOlderThan(s.runs[k].cutoff), s.rows) && t.created == s.created
      && t.disk == s.disk && t.runs.Keys == s.runs.Keys
      && (forall j :: j in s.runs && j != k ==> t.runs[j] == NoteDelete(s.runs[j]))
      && t.runs[k].phase.Deleted? && t.runs[k].pending == s.runs[k].pending
  {
    Next(events, states, i, Verify(k), s);
    var s1 := VerifyStep(s, k, s.runs[k]);
    Next(events, states, i + 1, DeleteOld(k), s1);
    assert states[i + 2] == DeleteStep(s1, k, s1.runs[k]);
  }

  lemma NoneOld(rows: seq<AuditRow>, cutoff: string)
    requires forall r :: r in rows ==> !Before(r, cutoff)
    ensures PageBefore(rows, cutoff, ARCHIVE_PAGE, None) == [] && Candidates(rows, cutoff) == []
    ensures Old(rows, cutoff) == {}
  {
    FilterMembers(OlderThan(cutoff), rows);
    EmptyOrInhabited(Filter(OlderThan(cutoff), rows));
    FilterAgrees(OlderThan(cutoff), (r: AuditRow) => Before(r, cutoff) && PastId(None, r), rows);
  }

  lemma OneOld(row: AuditRow, cutoff: string)
    requires Before(row, cutoff)
    ensures PageBefore([row], cutoff, ARCHIVE_PAGE, None) == [row] == Candidates([row], cutoff)
    ensures Old([row], cutoff) == {row} && Filter(NotOlderThan(cutoff), [row]) == []
  {
    FilterAgrees(OlderThan(cutoff), (r: AuditRow) => Before(r, cutoff) && PastId(None, r), [row]);
    FilterAll(OlderThan(cutoff), [row]);
  }

  predicate LateSchedule(events: seq<Event>, row: AuditRow, cutoff: string, file: string) {
    && |events| == 8
    && events[0] == Begin(0, cutoff) && events[1] == Count(0) && events[2] == Open(0, file)
    && events[3] == Page(0) && events[4] == Insert(row) && events[5] == Sync(0)
    && events[6] == Verify(0) && events[7] == DeleteOld(0)
  }

  /** A row created behind the walk with an old stamp passes the count check and is deleted
      without being archived: the rule on stamps is needed. */
  lemma LateRowIsLost(events: seq<Event>, row: AuditRow, cutoff: string, file: string)
    requires Before(row, cutoff) && file != ""
    requires LateSchedule(events, row, cutoff, file)
    ensures Respects(events, NewName) && Lost(After(events), row)
  {
    var states := TraceExists(events);
    LateScheduleOpensOnce(events, row, cutoff, file);
    NewNameWhenOpenedOnce(events, states, row, cutoff, file);
    RespectsNewName(events);
    LateScheduleWalks(events, states, row, cutoff, file);
    LateScheduleDeletes(events, states, row, cutoff, file);
  }

  lemma LateScheduleOpensOnce(events: seq<Event>, row: AuditRow, cutoff: string, file: string)
    requires LateSchedule(events, row, cutoff, file)
    ensures forall i :: 0 <= i < |events| && i != 2 ==> !events[i].Open?
  {
  }

  lemma NewNameWhenOpenedOnce(
    events: seq<Event>, states: seq<State>, row: AuditRow, cutoff: string, file: string)
    requires Trace(events, states) && LateSchedule(events, row, cutoff, file) && file != ""
    ensures NewName(states[2], events[2])
  {
    NoneOld([], cutoff);
    CountsIn(events, states, 0, INITIAL, 0, cutoff);
  }

  lemma RespectsNewName(events: seq<Event>)
    requires |events| > 2 && forall i :: 0 <= i < |events| && i != 2 ==> !events[i].Open?
    requires NewName(After(events[..2]), events[2])
    ensures Respects(events, NewName)
  {
  }

  lemma LateScheduleWalks(
    events: seq<Event>, states: seq<State>, row: AuditRow, cutoff: string, file: string)
    requires Trace(events, states)
    requires LateSchedule(events, row, cutoff, file)
    ensures states[4] == State(
      [], Disk(map[file := 0], map[0 := File([], false, false)]),
      map[0 := Archiver(cutoff, file, 0, Archived, {}, [])], {})
  {
    NoneOld([], cutoff);
    CountsIn(events, states, 0, INITIAL, 0, cutoff);
    OpensIn(events, states, 2, states[2], 0, file, 0, cutoff, {}, false);
    PagesIn(events, states, 3, states[3], 0, cutoff, file, 0, {}, []);
  }

  lemma LateScheduleDeletes(
    events: seq<Event>, states: seq<State>, row: AuditRow, cutoff: string, file: string)
    requires Trace(events, states)
    requires LateSchedule(events, row, cutoff, file) && Before(row, cutoff)
    requires states[4] == State(
      [], Disk(map[file := 0], map[0 := File([], false, false)]),
      map[0 := Archiver(cutoff, file, 0, Archived, {}, [])], {})
    ensures Lost(states[8], row)
  {
    LateRowArrives(events, states, row, cutoff, file);
    OneOld(row, cutoff);
    DeletesIn(events, states, 6, states[6], 0);
  }

  lemma LateRowArrives(
    events: seq<Event>, states: seq<State>, row: AuditRow, cutoff: string, file: string)
    requires Trace(events, states) && |events| == 8 && Before(row, cutoff)
    requires events[4] == Insert(row) && events[5] == Sync(0)
    requires states[4] == State(
      [], Disk(map[file := 0], map[0 := File([], false, false)]),
      map[0 := Archiver(cutoff, file, 0, Archived, {}, [])], {})
    ensures
      var s := states[6];
      && s.rows == [row] && s.created == {row} && s.runs.Keys == {0}
      && s.disk == Disk(map[file := 0], map[0 := File([], true, false)])
      && s.runs[0].phase.Synced? && s.runs[0].archived == s.runs[0].candidates
      && s.runs[0].cutoff == cutoff && s.runs[0].pending == [] && !s.runs[0].foreign
  {
    Next(events, states, 4, Insert(row), states[4]);
    assert states[5].runs[0] == Archiver(cutoff, file, 0, Archived, {}, []).(late := {row});
    Next(events, states, 5, Sync(0), states[5]);
    assert Overwrite([], 0, []) == [];
  }

  predicate SameNameSchedule(events: seq<Event>, row: AuditRow, cutoff: string, file: string) {
    && |events| == 12
    && events[0] == Insert(row) && events[1] == Begin(0, cutoff) && events[2] == Count(0)
    && events[3] == Open(0, file) && events[4] == Page(0) && events[5] == Sync(0)
    && events[6] == Verify(0) && events[7] == DeleteOld(0) && events[8] == Begin(1, cutoff)
    && events[9] == Count(1) && events[10] == Open(1, file) && events[11] == Page(1)
  }

  /** Two prunes of the same second use one file name: the second truncates the archive of
      the first. The rule on names is needed. */
  lemma SameNameLosesArchive(events: seq<Event>, row: AuditRow, cutoff: string, file: string)
    requires Before(row, cutoff)
    requires SameNameSchedule(events, row, cutoff, file)
    ensures Respects(events, Timely) && Lost(After(events), row)
  {
    var states := TraceExists(events);
    OnlyInsertsFirst(events, row, cutoff, file);
    TimelyUnlessCreating(events);
    FirstPruneDeletes(events, states, row, cutoff, file);
    SecondPruneTruncates(events, states, row, cutoff, file);
  }

  lemma FirstPruneDeletes(
    events: seq<Event>, states: seq<State>, row: AuditRow, cutoff: string, file: string)
    requires Trace(events, states)
    requires SameNameSchedule(events, row, cutoff, file) && Before(row, cutoff)
    ensures AfterFirstPrune(states[8], row, file)
  {
    FirstPruneWalks(events, states, row, cutoff, file);
    FirstPruneEnds(events, states, row, cutoff, file);
  }

  lemma FirstPruneEnds(
    events: seq<Event>, states: seq<State>, row: AuditRow, cutoff: string, file: string)
    requires Trace(events, states) && |events| == 12 && Before(row, cutoff)
    requires events[5] == Sync(0) && events[6] == Verify(0) && events[7] == DeleteOld(0)
    requires states[5] == State(
      [row], Disk(map[file := 0], map[0 := File([], false, false)]),
      map[0 := Archiver(cutoff, file, 0, Archived, {row}, [row])], {row})
    ensures AfterFirstPrune(states[8], row, file)
  {
    OneOld(row, cutoff);
    SyncsIn(events, states, 5, states[5], 0, cutoff, file, 0, {row}, [row]);
    assert Overwrite([], 0, [row]) == [row];
    DeletesIn(events, states, 6, states[6], 0);
  }

  lemma FirstPruneWalks(
    events: seq<Event>, states: seq<State>, row: AuditRow, cutoff: string, file: string)
    requires Trace(events, states) && |events| == 12 && Before(row, cutoff)
    requires events[0] == Insert(row) && events[1] == Begin(0, cutoff) && events[2] == Count(0)
    requires events[3] == Open(0, file) && events[4] == Page(0)
    ensures states[5] == State(
      [row], Disk(map[file := 0], map[0 := File([], false, false)]),
      map[0 := Archiver(cutoff, file, 0, Archived, {row}, [row])], {row})
  {
    Next(events, states, 0, Insert(row), INITIAL);
    assert states[1] == State([row], Disk(map[], map[]), map[], {row});
    OneOld(row, cutoff);
    CountsIn(events, states, 1, states[1], 0, cutoff);
    OpensIn(events, states, 3, states[3], 0, file, 0, cutoff, {row}, false);
    PagesIn(events, states, 4, states[4], 0, cutoff, file, 0, {row}, [row]);
  }

  /** The first prune's archive is all there is. */
  ghost predicate AfterFirstPrune(s: State, row: AuditRow, file: string) {
    && s.rows == [] && s.created == {row} && s.runs.Keys == {0}
    && s.disk == Disk(map[file := 0], map[0 := File([row], true, false)])
    && s.runs[0].phase.Deleted? && s.runs[0].pending == []
  }

  lemma SecondPruneTruncates(
    events: seq<Event>, states: seq<State>, row: AuditRow, cutoff: string, file: string)
    requires Trace(events, states)
    requires SameNameSchedule(events, row, cutoff, file) && AfterFirstPrune(states[8], row, file)
    ensures Lost(states[12], row)
  {
    NoneOld([], cutoff);
    CountsIn(events, states, 8, states[8], 1, cutoff);
    OpensIn(events, states, 10, states[10], 1, file, 0, cutoff, {}, false);
    PagesIn(events, states, 11, states[11], 1, cutoff, file, 0, {}, []);
  }

  lemma OnlyInsertsFirst(events: seq<Event>, row: AuditRow, cutoff: string, file: string)
    requires SameNameSchedule(events, row, cutoff, file)
    ensures forall i :: 1 <= i < |events| ==> !events[i].Insert? && !events[i].PostCount?
  {
  }

  lemma TimelyUnlessCreating(events: seq<Event>)
    requires forall i :: 1 <= i < |events| ==> !events[i].Insert? && !events[i].PostCount?
    ensures Respects(events, Timely)
  {
    assert After([]).runs == map[];
    assert events != [] ==> events[..0] == [];
  }

  // ---------- Two prunes with one file open ----------

  /** A state with two prunes in it. */
  ghost predicate Stands(
    s: State, rows: seq<AuditRow>, created: set<AuditRow>, disk: Disk, first: Run, second: Run)
  {
    && s.rows == rows && s.created == created && s.disk == disk && s.runs.Keys == {0, 1}
    && s.runs[0] == first && s.runs[1] == second
  }

  predicate TwoWritersSchedule(
    events: seq<Event>, r: AuditRow, q: AuditRow, cutoff: string, earlier: string, file: string)
  {
    && |events| == 14
    && events[0] == Insert(r) && events[1] == Insert(q)
    && events[2] == Begin(0, cutoff) && events[3] == Count(0)
    && events[4] == Begin(1, earlier) && events[5] == Count(1)
    && events[6] == Open(0, file) && events[7] == Open(1, file)
    && events[8] == Page(0) && events[9] == Page(1) && events[10] == Sync(0)
    && events[11] == Sync(1) && events[12] == Verify(0) && events[13] == DeleteOld(0)
  }

  /** The rows of the two prunes: one prune's page is both, the other's the later id only. */
  predicate TwoAges(r: AuditRow, q: AuditRow, cutoff: string, earlier: string) {
    && Lexical.Less(r.id, q.id) && Before(r, cutoff) && Before(q, cutoff)
    && Before(q, earlier) && !Before(r, earlier)
  }

  /** Two prunes with different windows open one name within a second: what the second writes
      replaces the front of what the first has written, the first one's count agrees all the
      same, and what it deletes is nowhere. */
  lemma TwoWritersLoseArchive(
    events: seq<Event>, r: AuditRow, q: AuditRow, cutoff: string, earlier: string, file: string)
    requires TwoAges(r, q, cutoff, earlier)
    requires TwoWritersSchedule(events, r, q, cutoff, earlier, file)
    ensures Respects(events, Timely) && Lost(After(events), r)
  {
    var states := TraceExists(events);
    TwoWritersInsertFirst(events, r, q, cutoff, earlier, file);
    TwoInsertsTimely(events, r);
    TwoWritersInsert(events, states, r, q);
    TwoWritersCount(events, states, r, q, cutoff, earlier, file);
    TwoWritersOpen(events, states, r, q, cutoff, earlier, file);
    TwoWritersWrite(events, states, r, q, cutoff, earlier, file);
    TwoWritersDelete(events, states, r, q, cutoff, earlier, file);
  }

  lemma TwoWritersInsertFirst(
    events: seq<Event>, r: AuditRow, q: AuditRow, cutoff: string, earlier: string, file: string)
    requires TwoWritersSchedule(events, r, q, cutoff, earlier, file)
    ensures forall i :: 2 <= i < |events| ==> !events[i].Insert? && !events[i].PostCount?
  {
  }

  lemma TwoInsertsTimely(events: seq<Event>, r: AuditRow)
    requires |events| >= 2 && events[0] == Insert(r)
    requires forall i :: 2 <= i < |events| ==> !events[i].Insert? && !events[i].PostCount?
    ensures Respects(events, Timely)
  {
    assert events[..0] == [] && events[..1] == [] + [events[0]];
    ThenOneMore(INITIAL, [], events[0]);
    assert After(events[..0]).runs == map[] && After(events[..1]).runs == map[];
  }

  lemma TwoOld(r: AuditRow, q: AuditRow, cutoff: string, earlier: string)
    requires TwoAges(r, q, cutoff, earlier)
    ensures PageBefore([r, q], cutoff, ARCHIVE_PAGE, None) == [r, q] == Candidates([r, q], cutoff)
    ensures PageBefore([r, q], earlier, ARCHIVE_PAGE, None) == [q] == Candidates([r, q], earlier)
    ensures Old([r, q], cutoff) == {r, q} && Old([r, q], earlier) == {q} && r != q
    ensures Filter(NotOlderThan(cutoff), [r, q]) == []
  {
    Lexical.Irreflexive(r.id);
    assert [r, q][1..] == [q] && [q][1..] == [];
    var past := (x: AuditRow) => Before(x, cutoff) && PastId(None, x);
    FilterAgrees(OlderThan(cutoff), past, [r, q]);
    FilterAll(OlderThan(cutoff), [r, q]);
    FilterAgrees(OlderThan(earlier), (x: AuditRow) => Before(x, earlier) && PastId(None, x), [r, q]);
    assert Filter(OlderThan(earlier), [r, q]) == [q];
    assert Sort(IdBefore, [q]) == [q] && Sort(IdBefore, [r, q]) == [r, q];
  }

  lemma TwoWritersCount(
    events: seq<Event>, states: seq<State>, r: AuditRow, q: AuditRow, cutoff: string,
    earlier: string, file: string)
    requires Trace(events, states) && |events| >= 6
    requires states[2] == State([r, q], Disk(map[], map[]), map[], {r, q})
    requires events[2] == Begin(0, cutoff) && events[3] == Count(0)
    requires events[4] == Begin(1, earlier) && events[5] == Count(1)
    requires TwoAges(r, q, cutoff, earlier)
    ensures Stands(
      states[6], [r, q], {r, q}, Disk(map[], map[]),
      Archiver(cutoff, "", 0, Counted, {r, q}, []),
      Archiver(earlier, "", 1, Counted, {q}, []))
  {
    TwoOld(r, q, cutoff, earlier);
    CountsIn(events, states, 2, states[2], 0, cutoff);
    CountsIn(events, states, 4, states[4], 1, earlier);
  }

  lemma TwoWritersInsert(events: seq<Event>, states: seq<State>, r: AuditRow, q: AuditRow)
    requires Trace(events, states) && |events| >= 2 && Lexical.Less(r.id, q.id)
    requires events[0] == Insert(r) && events[1] == Insert(q)
    ensures states[2] == State([r, q], Disk(map[], map[]), map[], {r, q})
  {
    Lexical.Irreflexive(r.id);
    Next(events, states, 0, Insert(r), INITIAL);
    assert states[1] == State([r], Disk(map[], map[]), map[], {r});
    Next(events, states, 1, Insert(q), states[1]);
  }

  lemma TwoWritersOpen(
    events: seq<Event>, states: seq<State>, r: AuditRow, q: AuditRow, cutoff: string,
    earlier: string, file: string)
    requires Trace(events, states) && |events| >= 8
    requires events[6] == Open(0, file) && events[7] == Open(1, file)
    requires Stands(
      states[6], [r, q], {r, q}, Disk(map[], map[]),
      Archiver(cutoff, "", 0, Counted, {r, q}, []),
      Archiver(earlier, "", 1, Counted, {q}, []))
    ensures Stands(
      states[8], [r, q], {r, q}, Disk(map[file := 0], map[0 := File([], false, true)]),
      Archiver(cutoff, file, 0, Archiving(None), {r, q}, []),
      Archiver(earlier, file, 0, Archiving(None), {q}, []))
  {
    OpensIn(events, states, 6, states[6], 0, file, 0, cutoff, {r, q}, false);
    assert states[7].runs[0].inode == 0 && Writing(states[7].runs[0].phase);
    OpensIn(events, states, 7, states[7], 1, file, 0, earlier, {q}, true);
  }

  /** What is left after both have flushed: of the first one's rows only the second. */
  ghost predicate Overwritten(
    s: State, r: AuditRow, q: AuditRow, cutoff: string, file: string)
  {
    && s.rows == [r, q] && s.created == {r, q} && s.runs.Keys == {0, 1}
    && s.disk == Disk(map[file := 0], map[0 := File([q, q], true, true)])
    && s.runs[0] == SyncedRun(Archiver(cutoff, file, 0, Archived, {r, q}, [r, q]))
    && s.runs[1].pending == []
  }

  lemma TwoWritersWrite(
    events: seq<Event>, states: seq<State>, r: AuditRow, q: AuditRow, cutoff: string,
    earlier: string, file: string)
    requires TwoWritersSchedule(events, r, q, cutoff, earlier, file) && Trace(events, states)
    requires TwoAges(r, q, cutoff, earlier)
    requires Stands(
      states[8], [r, q], {r, q}, Disk(map[file := 0], map[0 := File([], false, true)]),
      Archiver(cutoff, file, 0, Archiving(None), {r, q}, []),
      Archiver(earlier, file, 0, Archiving(None), {q}, []))
    ensures Overwritten(states[12], r, q, cutoff, file)
  {
    TwoWritersPage(events, states, r, q, cutoff, earlier, file);
    SyncsIn(events, states, 10, states[10], 0, cutoff, file, 0, {r, q}, [r, q]);
    assert Overwrite([], 0, [r, q]) == [r, q];
    SyncsIn(events, states, 11, states[11], 1, earlier, file, 0, {q}, [q]);
    assert Overwrite([r, q], 0, [q]) == [q, q];
  }

  lemma TwoWritersPage(
    events: seq<Event>, states: seq<State>, r: AuditRow, q: AuditRow, cutoff: string,
    earlier: string, file: string)
    requires Trace(events, states) && |events| >= 10
    requires events[8] == Page(0) && events[9] == Page(1)
    requires TwoAges(r, q, cutoff, earlier)
    requires Stands(
      states[8], [r, q], {r, q}, Disk(map[file := 0], map[0 := File([], false, true)]),
      Archiver(cutoff, file, 0, Archiving(None), {r, q}, []),
      Archiver(earlier, file, 0, Archiving(None), {q}, []))
    ensures Stands(
      states[10], [r, q], {r, q}, Disk(map[file := 0], map[0 := File([], false, true)]),
      Archiver(cutoff, file, 0, Archived, {r, q}, [r, q]),
      Archiver(earlier, file, 0, Archived, {q}, [q]))
  {
    TwoOld(r, q, cutoff, earlier);
    PagesIn(events, states, 8, states[8], 0, cutoff, file, 0, {r, q}, [r, q]);
    PagesIn(events, states, 9, states[9], 1, earlier, file, 0, {q}, [q]);
  }

  lemma TwoWritersDelete(
    events: seq<Event>, states: seq<State>, r: AuditRow, q: AuditRow, cutoff: string,
    earlier: string, file: string)
    requires Trace(events, states) && |events| == 14
    requires events[12] == Verify(0) && events[13] == DeleteOld(0)
    requires TwoAges(r, q, cutoff, earlier) && Overwritten(states[12], r, q, cutoff, file)
    ensures Lost(states[14], r)
  {
    TwoOld(r, q, cutoff, earlier);
    DeletesIn(events, states, 12, states[12], 0);
  }

  predicate RemovedSchedule(events: seq<Event>, row: AuditRow, cutoff: string, file: string) {
    && |events| == 14
    && events[0] == Insert(row) && events[1] == Begin(0, cutoff) && events[2] == Count(0)
    && events[3] == Begin(1, cutoff) && events[4] == Count(1)
    && events[5] == Open(1, file) && events[6] == Open(0, file) && events[7] == Page(0)
    && events[8] == Sync(0) && events[9] == Verify(0) && events[10] == DeleteOld(0)
    && events[11] == Page(1) && events[12] == Sync(1) && events[13] == Verify(1)
  }

  /** Two prunes of the same second count the same rows; the one that walks after the other's
      delete finds none, and removes as a partial archive the file both have opened. */
  lemma FailedVerifyRemovesArchive(events: seq<Event>, row: AuditRow, cutoff: string, file: string)
    requires Before(row, cutoff) && RemovedSchedule(events, row, cutoff, file)
    ensures Respects(events, Timely) && Lost(After(events), row)
  {
    var states := TraceExists(events);
    TimelyUnlessCreating(events);
    RemovedDeletes(events, states, row, cutoff, file);
    RemovedAtLast(events, states, row, cutoff, file);
  }

  /** One prune is done, the other is still to walk. */
  ghost predicate OneLeft(s: State, row: AuditRow, cutoff: string, file: string) {
    && s.rows == [] && s.created == {row} && s.runs.Keys == {0, 1}
    && s.disk == Disk(map[file := 1], map[1 := File([row], true, true)])
    && s.runs[0].pending == []
    && s.runs[1] == Archiver(cutoff, file, 1, Archiving(None), {row}, []).(disturbed := true)
  }

  lemma RemovedDeletes(
    events: seq<Event>, states: seq<State>, row: AuditRow, cutoff: string, file: string)
    requires Trace(events, states)
    requires RemovedSchedule(events, row, cutoff, file) && Before(row, cutoff)
    ensures OneLeft(states[11], row, cutoff, file)
  {
    OneOld(row, cutoff);
    RemovedOpens(events, states, row, cutoff, file);
    RemovedWrites(events, states, row, cutoff, file);
    DeletesIn(events, states, 9, states[9], 0);
  }

  lemma RemovedWrites(
    events: seq<Event>, states: seq<State>, row: AuditRow, cutoff: string, file: string)
    requires Trace(events, states) && |events| == 14 && Before(row, cutoff)
    requires events[7] == Page(0) && events[8] == Sync(0)
    requires Stands(
      states[7], [row], {row}, Disk(map[file := 1], map[1 := File([], false, true)]),
      Archiver(cutoff, file, 1, Archiving(None), {row}, []),
      Archiver(cutoff, file, 1, Archiving(None), {row}, []))
    ensures Stands(
      states[9], [row], {row}, Disk(map[file := 1], map[1 := File([row], true, true)]),
      SyncedRun(Archiver(cutoff, file, 1, Archived, {row}, [row])),
      Archiver(cutoff, file, 1, Archiving(None), {row}, []))
  {
    OneOld(row, cutoff);
    PagesIn(events, states, 7, states[7], 0, cutoff, file, 1, {row}, [row]);
    SyncsIn(events, states, 8, states[8], 0, cutoff, file, 1, {row}, [row]);
    assert Overwrite([], 0, [row]) == [row];
  }

  lemma RemovedOpens(
    events: seq<Event>, states: seq<State>, row: AuditRow, cutoff: string, file: string)
    requires Trace(events, states)
    requires Before(row, cutoff) && |events| == 14
    requires events[0] == Insert(row) && events[1] == Begin(0, cutoff) && events[2] == Count(0)
    requires events[3] == Begin(1, cutoff) && events[4] == Count(1)
    requires events[5] == Open(1, file) && events[6] == Open(0, file)
    ensures Stands(
      states[7], [row], {row}, Disk(map[file := 1], map[1 := File([], false, true)]),
      Archiver(cutoff, file, 1, Archiving(None), {row}, []),
      Archiver(cutoff, file, 1, Archiving(None), {row}, []))
  {
    OneOld(row, cutoff);
    Next(events, states, 0, Insert(row), INITIAL);
    assert states[1] == State([row], Disk(map[], map[]), map[], {row});
    CountsIn(events, states, 1, states[1], 0, cutoff);
    CountsIn(events, states, 3, states[3], 1, cutoff);
    OpensIn(events, states, 5, states[5], 1, file, 1, cutoff, {row}, false);
    assert states[6].runs[1].inode == 1 && Writing(states[6].runs[1].phase);
    OpensIn(events, states, 6, states[6], 0, file, 1, cutoff, {row}, true);
  }

  lemma RemovedAtLast(
    events: seq<Event>, states: seq<State>, row: AuditRow, cutoff: string, file: string)
    requires Trace(events, states)
    requires RemovedSchedule(events, row, cutoff, file) && OneLeft(states[11], row, cutoff, file)
    ensures Lost(states[14], row)
  {
    NoneOld([], cutoff);
    Next(events, states, 11, Page(1), states[11]);
    Next(events, states, 12, Sync(1), states[12]);
    Next(events, states, 13, Verify(1), states[13]);
  }
}
